# Verified model of the Veraxis memory-admissibility plane

Veraxis decides which stored memories may reach a language model, and leaves evidence of every
decision. These Dafny files model the authority plane of that system and prove what it guarantees,
for every input, every history and every interleaving. Where the code falls short of what its own
documents promise, the exact condition under which the promise holds is proved instead, together
with a history or run that breaks it.

## What is modelled

| files | part of the system |
|---|---|
| `Quarantine`, `SnapshotHash`, `Persistence`, `Monitor` | the revocation events, the fold that compiles them into three maps, the canonical fingerprint, the write-ahead log, the runtime monitor |
| `Writers` | any number of concurrent writers and readers over one log and one monitor, as steps |
| `Merkle`, `SessionMap`, `Lineage` | the turn tree, the signed session map and its replay, the consequence record |
| `Evaluate`, `Gateway`, `Rpc` | the flag evaluation, the scrubber that rewrites a message window, the evaluation server |
| `Handoff`, `Admission` | one handoff to a sub-agent, and any number of them competing for slots |
| `AxisDrift`, `DriftQueue`, `QueueSteps` | the drift arithmetic, the bounded queue of drift jobs and its feeder, and their interleavings |
| `ByteStrings`, `Outcomes`, `Sorting`, `Bags` | bytes, words, byte order; options and results; ID-ordered permutations; sums of multisets |

Code that updates state in place is modelled by methods and classes, each proved against a function
of its inputs or of the old state; the theorems are about these functions. Concurrent code is in
addition modelled as a system of steps, and its theorems are invariants of all runs.

**Foreign code is a parameter.** No law is postulated.

- SHA-256 (FIPS 180-4, section 6.2) is any function from byte strings to 32 bytes. A binding result
  reads "equal, or two different strings *that were hashed here* have one hash"; the strings are named
  by `CollisionBetween`, since some collision always exists.
- Ed25519 (RFC 8032, sections 5.1.6 and 5.1.7) is any pair of functions; the lemmas that need it
  assume that what the private key signs verifies under the public key, and nothing else.
- `encoding/json` is any pair of partial functions. The round trip of the log is proved to hold exactly
  when the codec gives back the events concerned (`Faithful`). An event whose strings are not valid
  UTF-8, which JSON rewrites, is appended like any other, and the theorems about concurrent writers
  cover it: recovery returns what the records decode to, and if the codec keeps event ID, memory, type
  and reason, the recovered snapshot is the same down to its fingerprint (`RecoveredIsAlike`). Every
  finite history has a faithful codec (`FaithfulCodecExists`).
- `sort.Slice` is any function returning an ID-ordered permutation. It need not be stable. Where ties
  matter, the one thing used is that it sees elements through comparisons of their IDs only, so that
  the IDs alone decide where an element goes (`InsertionSortPlacesLeaves`: there is such a sort).
- `math.Sqrt` is any function that squares back to its argument, on reals.
- The gateway's texts are a parameter of the scrubber theorems; `VeraxisTexts` are the real ones.
- Clocks, drawn event IDs, free room on the medium, the outcome of a sync, context cancellation,
  profile lookups and provider answers are arguments or steps.

## What the code does not do

- A revocation is not permanent, although `docs/architecture/01-core-invariants.md` calls it a state
  that cannot be overridden: later events free a revoked memory exactly when they hold no delete, end
  their blocks in a quarantine, and clear that (`RevocationLiftedExactly`). A deletion is permanent.
- `docs/ticket-15-durable-ledger.md` wants admissibility to stay continuous over a restart. For one
  writer whose appends succeed it does (`CrashContinuity`). An append that reports a sync failure comes
  back at the next start, and one that breaks off makes the whole log unreadable (`RestartAfterAppend`).
  The process goes on, and what is appended behind a broken write is reported as a success; it is
  recovered exactly when the broken write left nothing of its record or all of it. In between a restart
  fails, or the records it reads show two strings with one hash (`LaterAppendsRecoveredExactly`,
  `AppendsBehindBreakAreLost`, over runs `TornLogIsRefused`). With two writers, log order and ledger
  order can differ, and then a restart can change a verdict (`RestartChangesVerdict`). Once every durable
  event is listed, it keeps the verdict on a memory exactly when the memory is deleted, or the two orders
  end its blocks in the same class and, for a quarantine, agree on whether a clear follows
  (`RecoveryAgreesExactly`).
- The same document lists tamper detection. A payload under another's checksum is noticed
  (`TamperingNoticed`); records are not chained, so a whole record taken out of the log is not, and a
  deletion it held is forgotten exactly when no other record deletes the memory
  (`DroppedRecordIsUnnoticed`).
- With two overlapping writers an older snapshot can replace a newer one under an already used version
  (`StaleSnapshotWins`). The published snapshot reflects the ledger exactly when the last store was of a
  copy made after the last append (`PublishedIsCurrentExactly`, `SectionIsCurrentExactly`); short of the
  wrap at 2^64, versions increase exactly when no store falls between another writer's version load and
  its store (`VersionsIncreaseExactly`).
- `docs/ticket-20-orchestrator-handoff.md` promises a session map for every handoff; a provider can be
  called with no evidence left behind, exactly when it fails, when nothing was bound or when a tracker
  is empty (`UnsealedCallExactly`). The snapshot a map names is read after the provider call: it decided a
  binding exactly when both compile the same part of the ledger under the same version, and a memory
  deleted while the provider answers keeps its leaf and is blocked by the named snapshot
  (`NamesDecidingSnapshotExactly`, `SealsLaterSnapshot`).
- The attested bytes are joined without separators, so two different session maps can share a
  signature; equal lengths are exactly what rules it out (`AttestationBindsExactly`,
  `AttestationIsAmbiguous`). The lineage digest separates its two trackers by zero bytes, which is
  unambiguous exactly for trackers without a zero byte (`TrackersUnambiguousExactly`).
- A leaf marked injected may belong to a message another binding stamped out
  (`InjectedLeafMayBeStamped`); its text is lost exactly when some binding of that message blocks
  (`OriginalVisibleExactly`, `BlockedHasLast`). Outside hash collisions the root ignores the order of
  leaves exactly when no two different ones share a memory ID (`ReorderingKeepsRoot`,
  `SharedIdBreaksReordering`).
- The mask fields for the required lifecycle and the sensitivity limit are never read
  (`TwoMaskFieldsAreUnread`).

## Model

| member | source | states |
|---|---|---|
| Merkle.LeafPreimageInjective | pkg/merkle/merkle.go:18-34 | the 114 bytes hashed for a leaf determine all six fields |
| Merkle.LeafBytes | pkg/merkle/merkle.go:18-34 | which byte of the 114 belongs to which field |
| Merkle.HashLeaf | pkg/merkle/merkle.go:18-34 | feeding the hasher field by field hashes exactly that preimage |
| Merkle.LevelKeepsTree | pkg/merkle/merkle.go:56-71 | one pairing pass with odd-node promotion leaves the recursive largest-power-of-two tree unchanged |
| Merkle.PairUp | pkg/merkle/merkle.go:57-70 | the inner loop computes that pass and hashes half as many nodes as there are hashes, rounded down |
| Merkle.RoundsIsCeilLog | pkg/merkle/merkle.go:56-71 | halving rounded up takes ceil(log2 n) rounds |
| Merkle.BuildTurnTree | pkg/merkle/merkle.go:39-74 | root of the recursive tree over the ID-sorted leaves, zero for no leaves; n-1 node hashes and ceil(log2 n) rounds |
| Merkle.SmallTrees | pkg/merkle/merkle.go:39-74 | the roots of no, one, two and three leaves written out as hashes: left before right, the odd one promoted unhashed |
| Merkle.LeavesAscend | pkg/merkle/merkle.go:47-49 | the leaves of a tree ascend by memory ID |
| Merkle.TreeBinds | pkg/merkle/merkle.go:51-73 | equal trees over leaf lists of any two lengths mean equal lists, or two different strings hashed for them collide |
| Merkle.RootBinds | pkg/merkle/merkle.go:39-74 | equal roots mean the same ID-sorted leaves, or such a collision |
| Merkle.ReorderingKeepsRoot | pkg/merkle/merkle.go:36-49 | leaf order does not matter when no two different leaves share a memory ID |
| Merkle.SharedIdBreaksReordering | pkg/merkle/merkle.go:47-49 | otherwise exchanging two leaves with one ID gives another root, or hashed strings collide, for lists of any length and every sort that sees leaves through comparisons of their IDs, stable or not |
| Evaluate.UseExactly | pkg/evaluate/evaluate.go:40-79 | a memory is used exactly when tenant and domain match, no lifecycle flag stands, nothing prohibited is met and an allowed class is |
| Evaluate.EachBoundaryExactly | pkg/evaluate/evaluate.go:40-79 | decision and reason of the first boundary crossed, in order, down to the flag bits 2, 4 and 8 |
| Evaluate.DecisionNumbers | pkg/evaluate/evaluate.go:8-20 | the number each decision is written as (the texts of the reasons: `ReasonStringsOfUse`, `ReasonStringsOfFlags`, `ReasonStringsOfMask`, `ReasonStringsOfState`) |
| Evaluate.TighterMaskAdmitsLess | pkg/evaluate/evaluate.go:68-78 | for every 64-bit flag word, a mask that prohibits more and allows less admits nothing new |
| Evaluate.TwoMaskFieldsAreUnread | pkg/evaluate/evaluate.go:40-79 | changing the required lifecycle and the sensitivity limit of a mask changes no decision and no reason |
| Quarantine.FoldConcat | pkg/quarantine/quarantine.go:244-263 | compiling a concatenation continues the fold of its first part |
| Quarantine.AlikeFold | pkg/quarantine/quarantine.go:244-263 | compilation reads event ID, memory, type and reason and nothing else |
| Quarantine.LastOfIsLast | pkg/quarantine/quarantine.go:244-263 | the position a reading names is the last of its kind |
| Quarantine.EntryReadsHistory | pkg/quarantine/quarantine.go:234-267 | what the three maps hold for a memory, read off the last delete, block and clear of its history |
| Quarantine.LookupReadsHistory | pkg/quarantine/quarantine.go:163-189 | the lookup on the compiled maps is the declarative reading of the history, decision, reason and cited event; no memory is both quarantined and revoked |
| Quarantine.DeletedExactly | pkg/quarantine/quarantine.go:247-250 | over the events' own fields: a memory is deleted exactly when some event of it has type 1, and the last such event is cited |
| Quarantine.RevokedExactly | pkg/quarantine/quarantine.go:257-259 | without a deletion the last event of the memory with type 0, 2, 4, 5, 6 or 7 decides: it is refused exactly when that type is 2, whatever clears follow |
| Quarantine.QuarantinedExactly | pkg/quarantine/quarantine.go:251-256 | any other of these types quarantines, cites that event and gives the reason of its type and reason byte, unless an event of type 3 follows it, which frees the memory |
| Quarantine.UntouchedIsFree | pkg/quarantine/quarantine.go:163-189 | a memory no event of these types names is free |
| Quarantine.VerdictConcat | pkg/quarantine/quarantine.go:244-263 | the verdict on a continued history from the two parts alone |
| Quarantine.DeletionIsPermanent | pkg/quarantine/quarantine.go:247-250 | whatever follows, a deleted memory stays deleted |
| Quarantine.RevocationLiftedExactly | pkg/quarantine/quarantine.go:251-261 | later events free a revoked memory exactly when they hold no delete, their last block is a quarantine, and a clear follows it |
| Quarantine.RevocationIsNotPermanent | pkg/quarantine/quarantine.go:252 | one quarantine and one clear free a revoked memory |
| Quarantine.WithoutClearStaysBlocked | pkg/quarantine/quarantine.go:244-263 | events without a clear of a blocked memory never free it |
| Quarantine.OnlyOwnEventsMatter | pkg/quarantine/quarantine.go:244-263 | what the maps say of a memory depends only on its own events |
| Quarantine.LookupIsLocal | pkg/quarantine/quarantine.go:163-189 | ledgers that agree on the events of a memory agree on its lookup |
| Quarantine.SameHistoriesSameMaps | pkg/quarantine/quarantine.go:234-267 | equal per-memory histories compile to equal maps |
| SnapshotHash.WriteSet | pkg/quarantine/quarantine.go:303-347 | whatever order a map is ranged over, the bytes written are those of its one ascending key order |
| SnapshotHash.ComputeSnapshotHash | pkg/quarantine/quarantine.go:269-286 | the hash of the canonical preimage |
| SnapshotHash.PreimageBytes | pkg/quarantine/quarantine.go:269-286 | version, count and last event ID, then Q, T and R entries of the three maps with their bodies |
| SnapshotHash.OrderedAscends | pkg/quarantine/quarantine.go:303-347 | the keys of a map are written in strictly ascending byte order |
| ByteStrings.LessExactly | pkg/quarantine/quarantine.go:308-310 | one ID is before another exactly when it is smaller at the first difference |
| SnapshotHash.CompileSnapshot | pkg/quarantine/quarantine.go:234-267 | the loop over events compiles the fold, its count modulo 2^64, the last event ID and the fingerprint |
| SnapshotHash.CompiledFields | pkg/quarantine/quarantine.go:234-267 | version, time, count, last event ID and hash of a compiled snapshot, in terms of its history |
| SnapshotHash.CodesDiffer | pkg/quarantine/quarantine.go:349-373 | the reason codes compilation can produce form a prefix-free set |
| SnapshotHash.FoldOnlyCompiled | pkg/quarantine/quarantine.go:251-256 | every quarantine entry of every history holds one of these codes |
| SnapshotHash.EntriesDecode | pkg/quarantine/quarantine.go:311-316 | a run of tagged entries with prefix-free bodies and what follows it can be read back in one way |
| SnapshotHash.PreimageDecodes | pkg/quarantine/quarantine.go:269-347 | equal preimages of compiled snapshots force equal version, count, last event ID and all three maps |
| SnapshotHash.FingerprintBinds | pkg/quarantine/quarantine.go:269-286 | equal fingerprints mean snapshots equal up to creation time, or their two preimages collide |
| SnapshotHash.AlikeCompile | pkg/quarantine/quarantine.go:234-267 | histories alike in those four fields have one snapshot, count, last event ID and fingerprint included |
| SnapshotHash.PrefixFingerprints | pkg/quarantine/quarantine.go:222-267 | two snapshots of one growing ledger have one fingerprint exactly when ledger part and version are the same, or their preimages collide |
| Persistence.RecordReads | pkg/quarantine/persistence.go:132-166 | a written record at the head of any bytes reads back as its payload |
| Persistence.RecordBytes | pkg/quarantine/persistence.go:69-84 | a record is length, the letters VM, payload and the hash of all before it |
| Persistence.EachFaultExactly | pkg/quarantine/persistence.go:132-166 | each reading error by the bytes alone, in the order the fields are met, and the payload otherwise |
| Persistence.CorruptionsNamed | pkg/quarantine/persistence.go:132-161 | which of the reading errors are corruptions |
| Persistence.ReadsOnlyRecords | pkg/quarantine/persistence.go:132-166 | whatever reads as a record is one, byte for byte |
| Persistence.CutReads | pkg/quarantine/persistence.go:132-161 | a record cut at any inner byte is a corruption that names the field the cut fell into |
| Persistence.AcceptedExactly | pkg/quarantine/persistence.go:125-176 | a file replays to a history exactly when it is well-framed records whose payloads decode to it |
| Persistence.FramingUnique | pkg/quarantine/persistence.go:46-48 | a file splits into records in one way |
| Persistence.RoundTripExactly | pkg/quarantine/persistence.go:48-176 | replay returns the appended events exactly when the codec is faithful on each |
| Persistence.ReplayAfterLog | pkg/quarantine/persistence.go:132-175 | replay of a log with a tail is its events and then the replay of the tail |
| Persistence.ReplayFrames | pkg/quarantine/persistence.go:132-175 | replay of any records with any tail: the events they decode to and then the tail, or the first payload that does not decode |
| Persistence.CutInLastRecord | pkg/quarantine/persistence.go:125-176 | a log cut inside its last record: nothing of it, all of it, or the corruption of that field |
| Persistence.CrashCut | pkg/quarantine/persistence.go:125-176 | every byte prefix of a log replays to the first k events exactly when it ends where record k ends, and is a corruption anywhere else |
| Persistence.TamperingNoticed | pkg/quarantine/persistence.go:133-166 | another payload of any length, with its own length field, under an old checksum is an alert, or two strings collide |
| Persistence.SuccessIsAWholeRecord | pkg/quarantine/persistence.go:48-85 | an append succeeds exactly when a whole record is on the medium and synced |
| Persistence.EachAppendErrorExactly | pkg/quarantine/persistence.go:48-85 | each error of an append by handle, payload, room and sync |
| Persistence.LandedExactly | pkg/quarantine/persistence.go:71-84 | an append leaves the part of one record there was room for, or nothing |
| Persistence.RestartAfterAppend | pkg/quarantine/persistence.go:48-85 | what a restart replays after each of the seven outcomes of an append: a sync failure's event returns, a broken write blocks recovery, any earlier refusal left nothing |
| Persistence.AppendsBehindBreakAreLost | pkg/quarantine/persistence.go:71-84 | with records appended behind a partial one, a restart fails, or the records it reads and the later ones show two strings with one hash; what it reads never ends in the later ones |
| Persistence.LaterAppendsRecoveredExactly | pkg/quarantine/persistence.go:48-176 | after n bytes of a record, later appends come back exactly when n is nothing or the whole record; in between a restart fails or strings collide |
| Persistence.FileLedger.Close | pkg/quarantine/persistence.go:35-44 | the handle is gone, the bytes stay |
| Persistence.FileLedger.WriteRecord | pkg/quarantine/persistence.go:71-82 | the four writes leave the prefix of one record that had room, all of it exactly on success |
| Persistence.FileLedger.AppendEvent | pkg/quarantine/persistence.go:48-85 | which error each obstacle gives, and the bytes left in the file in every case |
| Persistence.FileLedger.ReplayGenesis | pkg/quarantine/persistence.go:88-97 | a closed ledger is refused; an open one replays its bytes |
| Persistence.ReadRecord | pkg/quarantine/persistence.go:133-166 | the reads from the file at a position give the record there or the first fault |
| Persistence.ReplayFile | pkg/quarantine/persistence.go:100-176 | the loop over the read position computes the replay of the whole file |
| Monitor.RuntimeMonitor.constructor | pkg/quarantine/quarantine.go:104-120 | an empty ledger and the compiled empty snapshot of version 0 |
| Monitor.RuntimeMonitor.LookupNow | pkg/quarantine/quarantine.go:122-153 | the lookup in the published snapshot |
| Monitor.RuntimeMonitor.ActiveSnapshotInfo | pkg/quarantine/quarantine.go:191-198 | hash and version of the published snapshot, zeros without one |
| Monitor.RuntimeMonitor.SwapActiveSnapshot | pkg/quarantine/quarantine.go:200-205 | publishes a snapshot; a nil one changes nothing |
| Monitor.RuntimeMonitor.AppendEvent | pkg/quarantine/quarantine.go:207-211 | the ledger grows by the event |
| Monitor.RuntimeMonitor.CompileAndSwap | pkg/quarantine/quarantine.go:222-232 | publishes the compilation of the own ledger under the next version, whatever was swapped in before |
| Monitor.RecoverMonitorFromFile | pkg/quarantine/persistence.go:111-123 | an unreadable file gives no monitor; a readable one a monitor whose ledger and snapshot are its replay |
| Monitor.CommitRevocation | pkg/rpc/server.go:152-159 | durable first, then listed, then published; a failed write leaves ledger and snapshot alone |
| Monitor.CrashContinuity | pkg/quarantine/persistence.go:111-123 | a crash at any byte of a revocation's write: recovery fails exactly inside the record, otherwise gives the history just before or after, and what is appended or folded from there equals the run that never crashed |
| Monitor.DroppedRecordIsUnnoticed | pkg/quarantine/persistence.go:130-175 | a log without one of its records replays without an error to the other events; a deletion goes with it exactly when no other event deletes the memory |
| Writers.RunKeepsInv | pkg/quarantine/quarantine.go:207-232 | every interleaving, of all events an append accepts, with syncs that fail and writes that break off, keeps: the bytes of the log, events accounted for as listed, pending or refused, every snapshot the compilation of a ledger prefix |
| Writers.DurableBeforeVisible | pkg/rpc/server.go:152-159 | the monitor's events are a sub-multiset of the durable ones; the difference is what is on its way or was refused after its record was complete |
| Writers.ReadersSeeHistory | pkg/quarantine/quarantine.go:155-161 | whatever snapshot a reader captured is the compilation of a prefix of the ledger |
| Writers.DecisionsAreDurable | pkg/quarantine/quarantine.go:163-189 | a block any reader sees cites an event whose record is complete in the log |
| Writers.CrashAnywhere | pkg/quarantine/persistence.go:48-85 | a crash at any moment of any run without a broken write, with any codec: what the complete records decode to comes back, or a corruption exactly while one is partly written; it is the committed events exactly when the codec is faithful on those of the run |
| Writers.TornLogIsRefused | pkg/quarantine/persistence.go:71-84 | after one broken write, whatever all writers append since, a restart fails, or what it reads collides with it |
| Writers.RecoveredIsAlike | pkg/quarantine/persistence.go:111-123 | a codec that keeps the four compiled fields is enough for the recovered snapshot to be that of the committed events |
| Writers.RecoveryAgreesExactly | pkg/quarantine/persistence.go:111-123 | with every durable event listed and no broken write, a restart keeps the verdict on a memory exactly when it is deleted or log and ledger order agree on its last block and, for a quarantine, on the clear after it |
| Writers.RecoveryAgreesPerMemory | pkg/quarantine/persistence.go:111-123 | in particular decision, reason and cited event agree on a memory whose events entered both in one order |
| Writers.SectionIsCurrentExactly | pkg/quarantine/quarantine.go:222-232 | after one writer's copy and store with no later store, the published snapshot compiles the whole ledger exactly when nobody appended since the copy |
| Writers.PublishedIsCurrentExactly | pkg/quarantine/quarantine.go:222-232 | over a whole run, it does exactly when the last store was of a copy made after the last append |
| Writers.VersionsIncreaseExactly | pkg/quarantine/quarantine.go:224-230 | up to the 2^64 wrap, published versions strictly increase exactly when no store falls between another writer's version load and its store, and then by one each |
| Writers.StaleSnapshotWins | pkg/quarantine/quarantine.go:222-232 | a run of two writers after which a durable, listed deletion changes nothing in the published snapshot, under a version used twice |
| Writers.RestartChangesVerdict | pkg/rpc/server.go:152-158 | a run of two writers after which a restart turns a quarantine into a refusal |
| Gateway.RulingShape | pkg/gateway/gateway.go:74-157 | every binding is injected, stamped or out of range, exactly one of them |
| Gateway.ContentStep | pkg/gateway/gateway.go:129-154 | one more binding rewrites a content as the closed form says |
| Gateway.Perform | pkg/gateway/gateway.go:129-154 | the assignment to the window slice meets the closed form in every message |
| Gateway.SanitizeContextWindow | pkg/gateway/gateway.go:54-160 | the window is, per message, the tombstone of the last blocking binding or the original, behind the banners of the qualifying ones after it; roles, length and order stay; leaf k accounts for binding k field by field |
| Gateway.RulingDecides | pkg/gateway/gateway.go:74-128 | what is decided on a binding and for which reason: range, profile, tenant, domain, monitor, flags, constraints, in this order |
| Gateway.LeafDescribes | pkg/gateway/gateway.go:156-178 | the leaf of a binding holds its memory ID and hash, the policy hash, the number of the decision, injection exactly for 0 and 1, and the hash of the reason text |
| Gateway.WindowOfOneMore | pkg/gateway/gateway.go:129-154 | one more binding touches its own message only: kept when used, behind the banner of its constraints when qualified, otherwise replaced by the tombstone of its decision |
| Gateway.WindowOfNone | pkg/gateway/gateway.go:54-72 | without bindings the window is the messages |
| Gateway.BannerStrings | pkg/gateway/gateway.go:162-167 | the text of a banner, with constraints and without |
| Gateway.TombstoneStrings | pkg/gateway/gateway.go:15-23 | the texts of refusal, ignoring and quarantine (`StaleStrings`, `FinalStrings`: the other four) |
| Gateway.OriginalVisibleExactly | pkg/gateway/gateway.go:129-154 | two originals give one text exactly when some binding blocks the message |
| Gateway.BlockedHasLast | pkg/gateway/gateway.go:129-154 | a message has a last stamp exactly when some binding of it blocks, in whatever order |
| Gateway.NonInterference | pkg/gateway/gateway.go:74-157 | two windows that differ only in blocked messages give identical windows and leaves, whatever the order of bindings |
| Gateway.RuntimeBlockStamps | pkg/gateway/gateway.go:98-102 | a memory the monitor blocks is stamped, whatever its profile and the mask say |
| Gateway.BlockedHistoryHidesMessage | pkg/gateway/gateway.go:98-157 | a history that blocks a memory keeps the text of its message out of window and leaves |
| Gateway.InjectedLeafMayBeStamped | pkg/gateway/gateway.go:129-156 | an injected leaf whose message a later binding stamped out |
| Gateway.InjectedExactly | pkg/gateway/gateway.go:74-137 | a binding is injected exactly when it is in range, has a profile, the monitor leaves it free and the profile crosses no boundary |
| Gateway.TighteningAdmitsNoMore | pkg/gateway/gateway.go:92-132 | more events without a clear and a tighter mask turn no leaf into an injected one |
| Rpc.EvaluateMemoryUse | pkg/rpc/server.go:20-117 | the response is a function of the request and the one snapshot loaded at the start; which request each error answers, and that the first bad candidate decides |
| Rpc.ResponseShowsOneMoment | pkg/rpc/server.go:48-116 | under every interleaving of writers, all decisions of a response are those on one prefix of the ledger, its version is the captured one, its root is the tree over these decisions |
| Rpc.InjectableExactly | pkg/rpc/server.go:66-96 | over the request's own fields: a candidate is injectable exactly when its history leaves it free, no lifecycle flag stands, and its flags meet neither prohibition and some allowed class |
| Rpc.BitsOfRequest | pkg/rpc/server.go:41-46 | meeting a mask is a common bit; the lifecycle flags are bits 2, 4 and 8 |
| Rpc.ResponseReports | pkg/rpc/server.go:48-116 | every decision of a response, its reason, number and injection from history, flags and request alone; the root is the tree over leaves that say the same |
| Rpc.GatewayAgreesWithServer | pkg/rpc/server.go:66-86 | gateway and server decide alike on one snapshot when the four fields of the mask are those of the request, for an unconstrained profile of the tenant and domain |
| Rpc.AdmissibilityServer.RegisterRevocationEvent | pkg/rpc/server.go:119-171 | every error and what it leaves in the log; success means durable, listed, published and answered with the published version and hash; the event holds the request's own memory, type, reason, operator and source |
| SessionMap.WriteAttestation | pkg/sessionmap/sessionmap.go:119-141 | the buffer holds the fifteen attested fields in order, with nothing between them |
| SessionMap.AttestedBytes | pkg/sessionmap/sessionmap.go:119-141 | the attested bytes written out as one sum of the fifteen fields |
| ByteStrings.Word64Signed | pkg/sessionmap/sessionmap.go:136-139 | a time before 1970 is written in two's complement |
| ByteStrings.WordHalves | pkg/sessionmap/sessionmap.go:131-133 | a word of four or eight bytes is its higher half before its lower |
| SessionMap.GeneratedExactly | pkg/sessionmap/sessionmap.go:67-117 | when each error is answered; otherwise the map is the draft with the tree root, the expiry and the signature of its own attested bytes |
| SessionMap.ReplaysExactly | pkg/audit/audit.go:25-45 | for every map and key: when each error is answered, and replay and signature are valid exactly when the root is the tree over the leaves and the signature on the attested bytes verifies |
| SessionMap.ReplayedIsSigned | pkg/audit/audit.go:40-42 | under a key that accepts only what one private key signs, a map that replays carries that signature of its own attested bytes |
| SessionMap.ReplaysFullyExactly | pkg/audit/audit.go:61-80 | a missing verifier is an error, an unknown snapshot replays nothing, and otherwise the plain verdict holds |
| SessionMap.GeneratedReplays | pkg/sessionmap/sessionmap.go:67-117 | a generated map replay-verifies under the matching key |
| SessionMap.GeneratedReplaysFullyExactly | pkg/audit/audit.go:61-80 | with policy and runtime verifiers it does exactly when both know its snapshots |
| SessionMap.ReorderingReplays | pkg/audit/audit.go:25-45 | reordering leaves of which no two different ones share an ID changes no verdict |
| SessionMap.OneRootOneSetOfLeaves | pkg/audit/audit.go:35-40 | two maps with one root that pass the root check carry the same leaves up to order, or hashed strings collide |
| SessionMap.AttestationBindsExactly | pkg/sessionmap/sessionmap.go:119-141 | equal attested bytes mean equal attested fields exactly when the six strings have equal lengths |
| SessionMap.AttestationIsAmbiguous | pkg/sessionmap/sessionmap.go:121-124 | session and agent can trade bytes under one signature |
| Lineage.ComputeLineageDigest | pkg/audit/lineage.go:61-95 | hashes the 136-byte head, both trackers with their zero bytes, and the cast timestamp |
| Lineage.DigestBytes | pkg/audit/lineage.go:61-95 | the digested bytes written out as one sum |
| Lineage.CompiledExactly | pkg/audit/lineage.go:24-59 | a record is compiled exactly when neither tracker is empty, and takes its fields from the map it closes |
| Lineage.VerifiesExactlyWhatIsCompiled | pkg/audit/lineage.go:97-118 | a record verifies against a map exactly when compiling it from that map yields it |
| Lineage.DigestBinds | pkg/audit/lineage.go:61-95 | equal digests of records whose EEP IDs hold no zero byte bind all nine fields, or the two preimages collide |
| Lineage.TrackersUnambiguousExactly | pkg/audit/lineage.go:84-87 | the two trackers can be read back exactly when neither holds a zero byte |
| Handoff.HandoffCoordinator.constructor | pkg/orchestrator/handoff.go:38-56 | no slot taken; a cap of at least one |
| Handoff.HandoffCoordinator.ExecuteAgentHandoff | pkg/orchestrator/handoff.go:58-170 | every exit path gives back exactly the slot it took; result and provider call are those of the sequential handoff |
| Handoff.ResultCarries | pkg/orchestrator/handoff.go:96-169 | what was sent and returned: the window and leaves under the request's own tenant, domain and mask, the map's identities, snapshot and one-hour expiry, and the record that closes it |
| Handoff.EachHandoffErrorExactly | pkg/orchestrator/handoff.go:75-106 | when each error before the provider call is returned, in their order |
| Handoff.EachLateErrorExactly | pkg/orchestrator/handoff.go:108-163 | when each error after it is |
| Handoff.EvidenceClosure | pkg/orchestrator/handoff.go:131-169 | every successful handoff returns a map that replay-verifies over the scrubber's leaves, a record that verifies against it, and the window the provider got |
| Handoff.EvidenceSurvivesReordering | pkg/audit/audit.go:25-45 | the map still verifies after any reordering of leaves that do not disagree on an ID |
| Handoff.UnsealedCallExactly | pkg/orchestrator/handoff.go:75-163 | when a provider is called, and when such a call leaves no evidence |
| Handoff.NamesDecidingSnapshotExactly | pkg/orchestrator/handoff.go:115-119 | the map names the snapshot that decided a binding exactly when both compile the same part of the ledger under the same version, or preimages collide |
| Handoff.SealsLaterSnapshot | pkg/orchestrator/handoff.go:96-146 | a successful handoff, for any bindings, whose map names a snapshot that decided none of them: the leaves record the rulings on the earlier one, and the named one blocks the first memory |
| Admission.RunKeepsInv | pkg/orchestrator/handoff.go:85-111 | every interleaving of callers keeps slots, sent windows and results in step |
| Admission.SlotsAreCallersInside | pkg/orchestrator/handoff.go:85-90 | occupied slots are the callers between admission and exit, never above the cap, and zero when nobody is inside |
| Admission.OwnPath | pkg/orchestrator/handoff.go:75-111 | whatever the others do in between, the steps of a caller that is out are a refusal, an admission given up, or admission, scrubbing, call and sealing |
| Admission.InterleavingIsSequential | pkg/orchestrator/handoff.go:58-170 | each finished caller returned and sent what a handoff running alone does with the views of its own scrubbing, the answer to its own call and the snapshot of its own sealing: its scrubbed window once, or nothing when refused or not scrubbed |
| Admission.OneScrubbedCallInside | pkg/orchestrator/handoff.go:96-108 | a caller still inside has sent its scrubbed window at most once |
| AxisDrift.CosineSimilarity | pkg/axis/integrity.go:52-72 | the three accumulated sums, the zero-norm case and both errors |
| AxisDrift.DotOfOne | pkg/axis/integrity.go:60-65 | one dimension adds the product of its two entries, and no dimension nothing |
| AxisDrift.DotSplits | pkg/axis/integrity.go:60-65 | the sum over a range is the sum over its parts, wherever it is split |
| AxisDrift.NormZeroExactly | pkg/axis/integrity.go:67-69 | a norm is zero exactly when every entry of the range is |
| AxisDrift.SimilarityErrors | pkg/axis/integrity.go:52-69 | when each error is answered, and similarity 0 on an axis where the products vanish |
| AxisDrift.OneSharedDimension | pkg/axis/integrity.go:60-71 | vectors whose only non-zero entry on an axis is the same dimension, first and last included, have similarity 1 or -1 by the sign of the product |
| AxisDrift.SimilarityOf | pkg/axis/integrity.go:71 | where neither vector is zero, similarity times both lengths is the sum of products |
| AxisDrift.CauchySchwarz | pkg/axis/integrity.go:60-65 | the accumulated sums satisfy dot^2 <= norm1 * norm2 |
| AxisDrift.DriftBounded | pkg/axis/integrity.go:52-87 | every axis drift of every pair of vectors lies between 0 and 2 |
| AxisDrift.SimilarityScales | pkg/axis/integrity.go:52-72 | positive scaling of either vector changes no similarity and no error |
| AxisDrift.ChecksScale | pkg/axis/integrity.go:74-105 | nor the outcome of the whole evaluation |
| AxisDrift.EvaluateDrift | pkg/axis/integrity.go:74-105 | the checks that update one result record compute the fold over the axes |
| AxisDrift.DriftVerdict | pkg/axis/integrity.go:87-96 | preserved exactly when no drift exceeds the threshold; otherwise score and type are those of the first axis of maximal drift, for every threshold |
| AxisDrift.PreservedExactly | pkg/axis/integrity.go:74-105 | for vectors and partitions of any kind, preserved exactly when every similarity is defined and near enough |
| AxisDrift.UndefinedAxisResets | pkg/axis/integrity.go:78-85 | an axis that cannot be compared sets score 1.0 and the invalid-input type, however far an earlier one drifted |
| AxisDrift.VerdictAfter | pkg/axis/integrity.go:87-96 | comparable axes checked after anything else change score and type exactly when one drifts beyond threshold and score so far, and then to the first of maximal drift |
| AxisDrift.ReasonsAreExceeding | pkg/axis/integrity.go:88-90 | the reason codes are exactly the exceeding axes, in order |
| AxisDrift.SelfPreserved | pkg/axis/integrity.go:67-69 | with the default dimensions a vector preserves itself exactly when each of 0-23, 24-47, 48-71, 72-95 and 96-127 holds a non-zero entry and the threshold is not negative, or the threshold is at least 1 |
| AxisDrift.DefaultPartition | pkg/axis/integrity.go:44-50 | the five default ranges part the 128 dimensions, each with its own drift type |
| AxisDrift.WrongSizeFailsAll | pkg/axis/integrity.go:53-55 | vectors of the wrong size fail every axis at any threshold |
| AxisDrift.DriftNumbers | pkg/axis/worker.go:172-187 | reason and event type of each drift, as the bytes logged |
| AxisDrift.DriftEventBlocks | pkg/axis/worker.go:172-187 | the event any drift maps to takes its memory out of use, quarantined or still deleted |
| DriftQueue.DriftMonitorCoordinator.constructor | pkg/axis/worker.go:45-62 | an empty queue bounded by at least one, counters at zero |
| DriftQueue.DriftMonitorCoordinator.SubmitNonBlocking | pkg/axis/worker.go:82-90 | a job is queued last when there is room and otherwise counted as dropped |
| DriftQueue.DriftMonitorCoordinator.ProcessJob | pkg/axis/worker.go:121-149 | counters, log, ledger and snapshot in each of the four outcomes; nothing becomes visible that is not durable |
| DriftQueue.DriftMonitorCoordinator.EmittedExactly | pkg/axis/worker.go:121-170 | an event is filed exactly for a drifted job with an event ID, and holds the job's memory, operator, source and policy and the type and reason of its drift |
| DriftQueue.DriftedMemoryIsBlocked | pkg/axis/worker.go:142-145 | the snapshot published for a drift blocks its memory |
| DriftQueue.InterceptorWrapper.InterceptOne | pkg/integrations/vectorstore/interceptor.go:74-97 | one pair is skipped, submitted or dropped, and the account of all pairs so far stays true |
| DriftQueue.InterceptorWrapper.InterceptQueryResults | pkg/integrations/vectorstore/interceptor.go:59-100 | the records come back untouched; matching pairs fill the room in order, the rest are dropped, mismatched pairs skipped, and the 64-bit counters say how many |
| DriftQueue.InterceptorWrapper.JobsExactly | pkg/integrations/vectorstore/interceptor.go:74-97 | the jobs are those of all pairs that name one memory, in order, comparing the anchor with the retrieved embedding |
| QueueSteps.RunKeepsInv | pkg/axis/worker.go:82-149 | every interleaving of submitters and workers keeps queue, jobs and counters in step |
| QueueSteps.JobsAreConserved | pkg/axis/worker.go:82-149 | offers are queued or dropped, the queue is bounded and first-in first-out, every job taken is done or in one worker's hands, and the counters are the counts on 64 bits |
| QueueSteps.QuiescentAccount | pkg/axis/worker.go:92-115 | once drained, every accepted job was judged exactly once and the counters add up to the offers |

## Left out

- Commands, examples, benchmarks, SDKs, deployment files and runbooks: they call or restate what is modelled.
- `pkg/gateway/inference.go`, the provider adapters and the inference block (model name, short ID, token count): copying that repeats the handoff path.
- `pkg/ops`, `pkg/policy`, `pkg/rpc/errors.go`: equality and status branches, easy members only.
- `VerifySessionMAPWithPolicy` and `GenerateSessionMAP`: the two-verifier form and the runtime-snapshot form contain them.
- Nil receivers, nil requests, panics, closing the job channel and goroutine start and wait: Go runtime behaviour.
- The scrubber's default branch for unknown decisions: decisions are an enumeration here, and no call produces another value.
- The content of error messages beyond which error is reported.
- AxisDrift.EvaluateDrift: floats are exact reals, so rounding, infinities and NaN (which passes every threshold comparison) are not modelled; the five calls of the closure are a loop over a list of axes.
- AxisDrift.CosineSimilarity: products of 32-bit floats are exact reals.
- DriftQueue.InterceptorWrapper.InterceptQueryResults: other submitters between two offers are covered by QueueSteps only.
- QueueSteps.JobsAreConserved: a step stands for a whole queue or counter operation; the log and monitor work of a job is one step, and is interleaved in Writers.
- Writers.RunKeepsInv: no snapshot is swapped in from outside, and after a second broken write nothing is said about the bytes of the log.
- Monitor.CrashContinuity: one writer at a time; Writers.CrashAnywhere covers many.
- Persistence.FileLedger.AppendEvent: a medium that keeps fewer bytes after a failed sync than it accepted is not modelled.
- Merkle.BuildTurnTree: the copy that is sorted in place is a sort function applied to the leaves.
