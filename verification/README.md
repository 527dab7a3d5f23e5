# RomM-Swarm: a verified model

RomM-Swarm lets the owners of RomM libraries share what they hold. A Bridge sits beside each library; a Network Host
knows who belongs to which Swarm; a relay carries bytes between Bridges that cannot reach each other. This project
models the parts of that system whose correctness is a matter of order, state and arithmetic, and proves what each
promises. `dafny verify dfyconfig.toml` checks all of it.

Code that works by changing things step by step is modelled as classes and loops, proved against functions on values;
code that interleaves is modelled as step machines over those same functions, and the main results are about every
run of the machines. A step that does not apply leaves the state as it is, so every list of steps is a run.

## The modules

**Files.** `Filesystem` is names, inodes and bytes, because a hard link gives two names one inode, with what a power cut
spares of each. `AtomicFiles` is the save recipe of credential file and journals, one step at a time: temporary file,
write, flush, rename, flush of the directory.

**Rotating credentials.** `Credentials` is the Host's verifier over its store, `BridgeDisk` the Bridge's credential
file and its refresh. `Linearization` interleaves any number of callers whose load and save are separate steps under a
mutex per Bridge, and shows that every interleaving equals some sequential order of whole operations that agrees with
real time; it also shows that without the mutex none exists. `Recovery` puts Host, network and disk together, with lost
messages, failed saves, crashes and power cuts: what can be said of the token on the Bridge's disk in every run, when a
family can end, and the exact conditions under which the promise stops. `Crashes` runs that protocol with each save made
step by step on the filesystem, `Stragglers` with requests that arrive after the Bridge gave them up.

**Relay and transport.** `Relay` holds the critical sections of one relay server; `RelayRuns` interleaves any number
of connections, pairers, timeouts and revocations over them, and `RelayLimits` says where the byte cap and a revocation's
reach stop. `RelayOffsets` watches those runs for what the connections are told: the offset both sides resume at, and the
budget their pipe gets. `Transport` is the sender's and the receiver's loops; `TransferRuns` runs sender, relay and
receiver together, with links that may lose bytes and a sender that may restart and forget its count.

**Receiving a transfer.** `Destination` is the closed table of states, `Journals` the two journals, `Reconcile` the
poll of RomM, `Digests` the comparison of hashes. `Flows` drives a transfer through all of it while a moderator and a
failing disk interfere. `Publication` is staging and the publisher call by call; `PublicationRuns` interleaves any
number of transfers, cleanups, outsiders and power cuts. `JournaledRuns` does so with the journal on its files, and
`Forgetting` says what it costs when the journal forgets. `Ingest` puts the flow on that staging area and publisher.

**Inventory and catalogue.** `Inventory` is the filtered snapshot, the delta and its application. `ReferenceSet` is
the hash index of a catalogue against a scan of it, `Names` the tag splitter and the canonical key, `Profile` the
choice of one entry per game, `Risk` the counting of replicas and the coverage totals. `Sorting` holds text order and
what a library sort promises.

**Canonicalization.** `Streams` is a reader with short reads. `Smd` is the Super Magic Drive de-interleaver and the
interleaver, `Nds` the padding of trimmed Nintendo DS dumps, `Crc16` the header checksum over bit-vectors.

`Wrappers` is the optional value and `Numbers` minimum and maximum.

## How things are represented

- A token is the serial of the call that minted it, its hash an injective image of it. The hashes of a file are any
  functions of its bytes, and a file id is the lower-cased canonical hash.
- A stored credential or history is a sequence of marks, one after the other, that reads back only when it is whole.
- What a transfer is promised is the set of contents its expected digest accepts.
- Clock readings, minted tokens, and whether a read, write, flush, link or removal succeeds are inputs of each call or
  step. Grace and freshness windows are integer comparisons; the credential window is in nanoseconds.
- Bridge, grant, connection, transfer and path identifiers are opaque numbers, since only their equality is used.
- Revisions wrap at 64 bits. Generations, byte counts and sizes are unbounded.
- A poll is a finite list of rounds whose last one is the caller's cancellation; a dial script is a finite list of
  what the network does with each dial.
- A power cut ends whatever is running. It may turn any bytes not flushed into anything, and undo any creation, rename,
  link or removal of a name whose directory entry was not flushed; a file or journal entry can be gone, or be back.
  Flushing a directory is for one name's entry; the others may reach the disk at any step of their own. A directory is
  made without its own entry being flushed, and goes with all in it; one entry stands for the whole way to it.
- In the transfer machines a byte is the place of the source it stands at, so that repeats and gaps show.

## Where the code and its own words differ

The model follows the code. Where a difference can be stated, a lemma states it.

- A race against a thief is said to end in reuse detection. The token that a recovery dropped is only refused as
  unknown (`Credentials.DroppedTokenIsOnlyRefused`), and revocation follows exactly from a second or late use of the
  previous one (`Credentials.RevokesExactlyOnReuse`).
- `prev.Generation + 1` is called exact. It is exact if and only if no saved result was lost
  (`Recovery.GenerationCountsLostResults`).
- A refused directory flush is reported by neither the credential save nor the journal's. A refresh begun before that
  rename is flushed can be undone by a power cut to a token the Host no longer knows
  (`Recovery.UnflushedRefreshStrands`). A transfer's first journal entry can be lost the same way
  (`Journals.ForgottenExactlyIfNotFlushed`), and receiving it again can then empty a file in the library through the
  staged name (`Forgetting.ForgettingWouldTruncateTheLibrary`, `Forgetting.ACutIsSafeExactlyIfRecalled`).
- The byte cap is documented as total per grant across every reconnect. Sessions of one grant can overlap, and then k
  of them move up to k times the cap, for every k the server admits. The cap holds exactly without overlap
  (`RelayLimits.TheCapHoldsExactlyWithoutOverlap`, `RelayLimits.EveryFactorIsAttained`, `RelayRuns.BytesAreBounded`).
- The acknowledged offset is documented as the position the relay has actually recorded. It is what was recorded when the
  pair met; a pipe of the same grant that records before the acknowledgement makes it too small
  (`RelayOffsets.AnOffsetIsStaleExactlyIf`, `RelayOffsets.AnOverlapMakesTheOffsetStale`).
- Revocation is said to tear down the active session. With two it closes only the one on record
  (`RelayLimits.RevocationMissesAnOverlap`, `RelayLimits.RevocationReachesAllExactlyWithoutOverlap`).
- The relay's count is said to put a sender right that lost its own after a restart. It does so exactly if everything
  went by the relay and is recorded before the restarted sender has anything accepted; otherwise bytes are repeated, or
  skipped (`TransferRuns.RestartsAreHarmlessExactlyIf`, `TransferRuns.ARestartCanRepeat`, `TransferRuns.ARestartCanSkip`).
- The directory flush is said to make a publication survive power loss. It does unless the directory is new, because its
  own entry is never flushed (`PublicationRuns.TheFirstFileOfAFolderCanVanish`, `Publication.PublishedIsWholeOrAbsent`);
  the same goes for the journal's directory and the credential's (`Crashes.TheFileNeedsItsFolder`).
- A waiter displaced by a second connection of its role is neither answered nor closed
  (`RelayRuns.OnlyASecondOfARoleDisplaces`, `RelayRuns.DisplacedIsForgotten`).
- `Terminal` calls source_active terminal although quarantine leaves it
  (`Destination.TerminalIsExactButForSourceActive`).
- The receiving flow's result is described as the terminal state reached. When an advance whose error the flow ignores
  is blocked, it reports a state the journal does not hold; `Flows.Flow.Receive` says exactly when.
- The copy onto the library's filesystem is said to be re-verified there. What is hashed is the stream being written,
  not the file read back; `PublicationRuns.CopyIsNotReadBack` gives the exact condition under which it makes no difference.
- A refused publication is cancelled because "nothing reached the library". When the library's directory cannot be opened
  to be flushed, the file is already there (`Ingest.CancelledMayHaveReachedTheLibrary`).
- `RiskOrder` lists the risk states by urgency, at risk before stale, although a stale file has fewer independent copies.
  So one more verified copy can make a file more urgent; `Risk.ANewBridgeHurtsOnlyTheStale` says exactly when.
- The preview is meant to show exactly what a Swarm would learn. A file held twice is previewed twice and published
  once; `Inventory.PreviewIsExactWithoutRepeats` says when the two agree.
- A lookup is described as finding every entry a payload matches. It misses exactly those without the decisive hash
  (`ReferenceSet.LookupMissesOnlyWhatLacksTheDecisiveHash`).
- Coverage states are said to partition the expected set so the numbers can be checked against each other. The
  available figure balances only with every threshold at least one; `Risk.CoverageBalances` gives the exact term.

## Model

| member | source | states |
|---|---|---|
| Credentials.Verifier.Enroll | auth/refresh.go:240-254 | Enrolment writes an unrevoked family with generation one, or reports that nothing was stored |
| Credentials.Verifier.Rotate | auth/refresh.go:262-345 | The exchange of a token is the atomic operation the protocol describes: rotation of the current token, one recovery of the previous one inside the window, revocation on a second or late use, refusal of anything else; a failed save changes nothing |
| Credentials.Verifier.EndFamily | auth/refresh.go:379-388 | Ending a family clears both hashes and reports reuse only once the revocation is stored |
| Credentials.Verifier.Authenticate | auth/refresh.go:361-376 | Only the live current token is accepted, and nothing is written |
| Credentials.Verifier.Revoke | auth/refresh.go:391-401 | Administrative revocation of a known family |
| Credentials.Verifier.ReEnroll | auth/refresh.go:409-426 | Re-enrolment is the atomic operation whose outcome the rows below spell out: a known family starts afresh under the minted token |
| Credentials.Store.Save | auth/refresh.go:449-457 | A save replaces the row of its own Bridge or fails and changes nothing |
| Credentials.ReEnrollStartsAfresh | auth/refresh.go:409-426 | A saved re-enrolment leaves the family unrevoked, without a reason, with the minted token as its only hash and one generation on; an unknown family and a failed save change nothing |
| Credentials.EnrollStartsAfresh | auth/refresh.go:240-254 | A saved enrolment leaves such a family at generation one whatever was stored before; a failed one changes nothing |
| Credentials.OnlyTheMintedTokenIsAccepted | auth/refresh.go:262-376 | From there the minted token passes the live check and is exchanged by the normal path, and any other token is refused as unknown without ending the family |
| Credentials.EnrolmentLeavesOneToken | auth/refresh.go:404-426 | After either enrolment, over any stored families, exactly the minted token is accepted, by the live check and by the exchange |
| Credentials.AuthenticateAcceptsOnlyTheCurrentToken | auth/refresh.go:361-376 | The live check accepts exactly the current token of a family that is not revoked, says which of the other cases it is, and changes nothing |
| Credentials.RevokeLeavesNoToken | auth/refresh.go:391-401 | After a saved administrative revocation every token is refused by everything, for the reason given; otherwise nothing changes |
| Credentials.RotationKeepsTheOldTokenForTheWindow | auth/refresh.go:285-337 | After a rotation only the new token passes the live check; the old one, shown again, is recovered within the window and ends the family after it |
| Credentials.RecoveryIsTheOnlyOne | auth/refresh.go:299-337 | After a recovery only the newest token passes the live check, and the recovered one ends the family whenever it is shown again |
| Credentials.OneCallLiftsExactlyIfItEnrols | auth/refresh.go:404-426 | One call on the Host lifts a revocation if and only if it is an enrolment of that Bridge that takes effect; no other call of that Bridge is granted anything |
| Credentials.OnlyAnEnrolmentLiftsARevocation | auth/refresh.go:404-408 | Over every sequence of calls on any Bridges, with any failures of the store, a revoked family stays revoked and no token of it is accepted until an enrolment of it takes effect |
| Credentials.AtomicKeepsKeys | auth/refresh.go:262-345 | Every operation touches its own Bridge's row only, and a row filed under one Bridge is never answered as another's |
| Credentials.HonouredAtMostTwice | auth/refresh.go:262-345 | Whoever presents whatever in whatever order, one token is honoured at most twice in the life of a family |
| Credentials.RevocationIsFinal | auth/refresh.go:268-272 | After revocation no sequence of presentations is ever honoured or changes the record |
| Credentials.RevokesExactlyOnReuse | auth/refresh.go:299-344 | A presentation ends a live family if and only if it shows the previous token a second time or after the window and its save succeeds |
| Credentials.DroppedTokenIsOnlyRefused | auth/refresh.go:42-44 | The package comment says the loser of a race trips reuse detection; the token a recovery dropped is refused as unknown and the family lives on |
| Linearization.NextKeepsLockInv | host/directory/bridgelocks.go:30-47 | At most one caller per Bridge is between its load and its save, and what it loaded is still what is stored |
| Linearization.ExplainNext | host/directory/bridges.go:96-142 | Each step of each caller is either invisible or the whole of its operation applied to the current store |
| Linearization.RunIsExplained | host/directory/bridges.go:96-142 | After any interleaving the store and all fixed answers are those of the operations taken in one order |
| Linearization.OrderRespectsTime | host/directory/bridgelocks.go:30-47 | The events of that order come in the order of the steps, each a step of its own caller |
| Linearization.EventsTakeEffect | host/directory/bridges.go:67-142 | Each event stands at the very step at which its caller's operation takes effect: not before it, and for good after it |
| Linearization.OrderIsRealTime | host/directory/bridgelocks.go:30-47 | An operation that had finished before another was called comes before it in the order |
| Linearization.EveryInterleavingIsSequential | host/directory/bridges.go:67-142 | Linearizability of concurrent enrol, rotate, revoke, re-enrol and unlocked authenticate over any Bridge ids, with failing reads and writes: one order of whole operations explains the store and every answer, each at the step where it takes effect, and agrees with real time |
| Linearization.NoMutexIsLeftHeld | host/directory/bridgelocks.go:30-47 | In every run a held mutex has its caller inside |
| Linearization.EveryCallerCanFinish | host/directory/bridgelocks.go:30-47 | From every reachable state every caller can still be answered: whoever holds its mutex can go through to the end, and then it can |
| Linearization.WithoutTheMutexThereIsNoOrder | host/directory/bridgelocks.go:12-24 | Without the per-id mutex two rotations both take the normal path with one token, which no sequential order of the two can do |
| Linearization.NoOrderRotatesTwice | host/directory/bridges.go:96-112 | One after the other, two rotations never both take the normal path with one token |
| AtomicFiles.StepsActOnWholeContents | auth/bridgestore.go:108-189 | Create, write, flush, rename, flush of the directory, crash, power cut: each step on names, inodes and bytes does to a reader what one step on two whole contents does, the one seen and the one on the disk |
| AtomicFiles.ReadersFindWholeContents | auth/bridgestore.go:108-189 | In every run, stopped, crashed or cut between any two steps, a reader finds something that was saved whole or was there before |
| AtomicFiles.WithoutTheFlushAnythingIsFound | auth/bridgestore.go:141-144 | Leave out the flush of the temporary file and a power cut after the rename can leave anything under the name; with it the same steps leave what was there |
| AtomicFiles.AtomicStore.Replace | auth/bridgestore.go:108-189 | The call made in place is the list of those steps its fault allows |
| AtomicFiles.SavesAreWholeOrNothing | bridge/ingest/filejournal.go:155-207 | After any one save the reader sees the new content exactly if it was renamed, and the disk has it exactly if the directory was flushed; every other file is as it was |
| BridgeDisk.OnlyWholeFilesAreRead | auth/bridgestore.go:85-105 | A file reads as a credential exactly if it is that credential's whole encoding; one cut short reads as none |
| BridgeDisk.FileStore.Save | auth/bridgestore.go:108-189 | The save is its steps on names and inodes: whatever stops it, the file reads as the whole old credential or the whole new one, and so does what a power cut would leave; success is also reported when the directory flush was refused |
| BridgeDisk.SkippingTheFlushLosesTheCredential | auth/bridgestore.go:141-144 | Without the flush of the temporary file a power cut after the rename can leave no credential at all; with it the old one is still there |
| BridgeDisk.Refresh | auth/bridgestore.go:210-234 | A refresh reports a credential only once the file holds it; every other outcome leaves the old one or the new one in the file, and nothing else changes |
| Crashes.CoupledRun | auth/bridgestore.go:108-234 | Every run of the protocol with its saves made step by step on the filesystem is a run of the abstract protocol, the file reading at each moment as that run says |
| Crashes.TheFileIsAlwaysWhole | auth/bridgestore.go:108-189 | Crash safety end to end: after any failures, crashes and power cuts between any two steps of any save, the file and what a power cut would leave are one whole credential each |
| Crashes.TheFileStaysLive | auth/refresh.go:262-345 | While the family is not revoked, the file on the filesystem reads as a credential whose token is the current or the previous one |
| Crashes.TheFileNeedsItsFolder | auth/bridgestore.go:164-189 | In every run a power cut that undoes all that is pending leaves the credential the disk holds exactly if the directory's own entry is on it, and none otherwise |
| Recovery.RefreshIsARun | bridge/hostclient/client.go:147-201 | The client's refresh over the wire is a run of the end-to-end machine with the same effect on Host and file |
| Recovery.InvRun | auth/bridgestore.go:108-234 | In every run the credential on disk stands zero, one or two Host rotations behind the current one, and each distance fixes how the Host sees it |
| Recovery.DiskStaysLive | auth/refresh.go:262-345 | While the family is not revoked, the token on disk is the current or the previous one, whatever was lost, failed or crashed |
| Recovery.HostVerdict | auth/refresh.go:262-345 | The Host's answer to the Bridge is determined by how many of its results the disk missed and whether the window has closed, in both directions |
| Recovery.LostResultRecovers | auth/refresh.go:311-337 | One lost result retried inside the window always recovers, and with nothing lost the window does not matter |
| Recovery.CauseOfRevocation | auth/refresh.go:299-310 | The step of a run that ends a family is the Host handling the Bridge's own token late or after a second loss |
| Recovery.RevocationHasACause | auth/refresh.go:299-310 | A family whose Bridge alone presents its tokens ends only for a late retry or a lost recovery |
| Recovery.GenerationInvRun | bridge/hostclient/client.go:147-201 | The bookkeeping of Host and Bridge generations over any run |
| Recovery.GenerationCountsLostResults | bridge/hostclient/client.go:139-188 | The Host's generation is the stored one plus the saved rotations whose result is not in the file; the comment's "exact" holds if and only if there are none |
| Recovery.UnflushedRefreshStrands | auth/bridgestore.go:176-189 | A refresh begun on an unflushed rename followed by a power cut leaves the disk live if and only if that rename had been flushed |
| Recovery.UnflushedStateIsReachable | auth/bridgestore.go:164-173 | One refresh whose directory flush is refused reaches such a state |
| Recovery.StaleRequestStrands | auth/refresh.go:262-345 | A request that arrives after the Bridge moved on is harmless if and only if its token is no longer the previous one |
| Recovery.StaleRequestIsReachable | bridge/hostclient/client.go:147-201 | Giving up on one request and then refreshing without trouble reaches a state in which that request, arriving late, kills the Bridge's token |
| Stragglers.ProtocolNeverStrands | auth/refresh.go:262-345 | On its own no step of the protocol takes from the Bridge the current token it holds |
| Stragglers.ArrivalStrandsExactlyIfOvertaken | auth/refresh.go:296-337 | A late request does so if and only if it is saved while its token is the previous one and the Bridge holds the current one; otherwise the protocol's invariant is kept |
| Stragglers.LateRequestsAreHarmlessExactlyIf | auth/refresh.go:262-345 | Over every run with late requests in any order the Bridge is never stranded if and only if none arrives so, and then the file stays live as long as the family |
| Stragglers.AStragglerCanStrand | bridge/hostclient/client.go:147-201 | A run in which it happens |
| Relay.Server.State | relay/relay.go:176-188 | One record per grant, created on first use |
| Relay.Server.Admit | relay/relay.go:222-230 | A session is admitted if and only if the server is below its cap |
| Relay.Server.Enter | relay/relay.go:281-307 | The pairing section: refuse, take the waiting peer of the other role with the bytes recorded so far, or park; the offset is pinned by the rows on `RelayOffsets` |
| Relay.Server.Expire | relay/relay.go:311-318 | A timed-out waiter leaves the slot only if it still holds it |
| Relay.Server.Revoke | relay/relay.go:193-201 | Revocation takes the waiter and the pair on record |
| Relay.Server.Begin | relay/relay.go:369-377 | A pipe starts with what is left of the grant's bytes, and not at all once revoked |
| Relay.Server.Copy | relay/relay.go:394-395 | At most the remaining bytes reach the sink, in order and unchanged |
| Relay.Server.Pipe | relay/relay.go:364-405 | A prefix of the source reaches the sink, as long as the budget, the source and the sink allow; the record grows by exactly that and never past the cap on its own; the pair on record is cleared and the slot given back, and a revoked grant or an expired one relays nothing |
| Relay.Server.PairAndRelay | relay/relay.go:325-358 | Whatever happens the session's slot is given back, and nothing is relayed unless it was admitted and both sides were told |
| RelayRuns.InvRun | relay/relay.go:193-358 | The ownership invariant of waiters, pairers and revokers over every interleaving |
| RelayRuns.HandOffIsExclusive | relay/relay.go:260-358 | A parked connection is taken by at most one of waiter, pairer and revoker, gets at most one signal, and the send finds its channel empty |
| RelayRuns.RevocationStopsTheGrant | relay/relay.go:190-220 | After a revocation's section no pairing is made and no pipe starts for the grant, in every continuation |
| RelayRuns.ARevocationTakesHold | relay/relay.go:190-220 | From any state and whatever follows, after a revocation the grant is revoked and its pairings and copying pipes are among those it found |
| RelayRuns.ARevocationTakesTheWaiter | relay/relay.go:193-212 | A revocation takes the waiter out of the slot, and it is to be signalled |
| RelayRuns.ARevokedGrantTurnsAway | relay/relay.go:281-286 | A connection for a revoked grant is turned away and changes nothing |
| RelayRuns.OnlyASecondOfARoleDisplaces | relay/relay.go:281-319 | A waiting connection is displaced at a step if and only if a second connection of its grant and role then runs its pairing section |
| RelayRuns.DisplacedIsForgotten | relay/relay.go:300-319 | A displaced connection is never taken, signalled, answered or closed afterwards |
| RelayRuns.EachSessionIsReleasedOnce | relay/relay.go:222-238 | The session counter equals the admitted sessions not yet released and stays within its cap |
| RelayRuns.SessionIsARun | relay/relay.go:325-405 | A pairer left to itself makes exactly the change of the call: its peer is signalled once, its slot given back, its bytes recorded |
| RelayRuns.PipesRunFromASourceToASink | relay/relay.go:325-377 | In every interleaving a pipe copies from a source to a sink of one grant, whichever of them made the pairing, and so is the pair on record |
| RelayOffsets.WatchInvRun | relay/relay.go:281-405 | What every pairer holds and every event shows agrees with the record, in every interleaving |
| RelayOffsets.TheOffsetToldIsTheBytesMoved | relay/relay.go:287-348 | The offset both sides are told is the one their own pairing read, and that is exactly the sum of what all pipes of the grant had moved by then; the record is the sum of the whole run |
| RelayOffsets.TheNextPairingReadsItAll | relay/relay.go:281-307 | In every reachable state the next pairing of a grant reads exactly the sum of what its pipes have moved |
| RelayOffsets.APairingIsMadeOnce | relay/relay.go:281-307 | A connection pairs at most once, so an acknowledgement belongs to one pairing |
| RelayOffsets.OffsetsNeverFallBack | relay/relay.go:287-348 | From one pairing of a grant to a later one the offset grows by exactly what its pipes moved in between |
| RelayOffsets.TheBudgetIsWhatTheOffsetLeaves | relay/relay.go:369-377 | A pipe's budget is the cap less the offset told less what other pipes moved since, so the cap less the offset if and only if they moved nothing |
| RelayOffsets.WithoutOverlapTheBudgetIsTheRest | relay/relay.go:281-377 | If no pipe of the grant copies between a pairing and the start of its pipe, the budget is exactly the cap less the offset |
| RelayOffsets.AnOffsetIsStaleExactlyIf | relay/relay.go:60-68 | The offset is documented as what the relay has actually recorded; when it is told, it is so if and only if no pipe of the grant recorded since the pairing |
| RelayOffsets.AnOverlapMakesTheOffsetStale | relay/relay.go:325-348 | In every run, a pairing made while a pipe of its grant copies is told too little if that pipe records before the acknowledgement |
| RelayOffsets.SuchAnOverlapIsReached | relay/relay.go:281-307 | A reconnect while the old pipe still copies reaches that state |
| RelayOffsets.DialsAreAnsweredByTheRelay | bridge/transport/transport.go:140-177 | In every run of the relay and for every sender, by any mix of routes, the count a relayed dial of the transport is answered with is the offset its pairing acknowledged if and only if the relay never moved more than the sender's connections had taken |
| RelayOffsets.ASenderHearsTheRecord | bridge/transport/transport.go:140-177 | So from the relay's start and the sender's first dial |
| RelayRuns.BytesAreBounded | relay/relay.go:364-405 | Recorded bytes and open budgets of a grant stay within k times the cap when at most k of its sessions overlap; exact for k = 1 over any reconnects |
| RelayRuns.OverlapIsAdmitted | relay/relay.go:222-238 | The overlap is at most the server's session cap |
| RelayRuns.BytesAreBoundedByAdmission | relay/relay.go:364-405 | Every grant is bounded by the session cap times the byte cap in every run |
| RelayLimits.TheCapHoldsExactlyWithoutOverlap | relay/relay.go:76-78 | The cap documented across every reconnect holds throughout a run, in recorded bytes and open budgets, if and only if no two sessions of the grant ever copied at once |
| RelayLimits.OverlapExceedsTheCap | relay/relay.go:364-405 | From every overlap of every run, the two pipes moving what they may takes the recorded bytes past the cap |
| RelayLimits.EveryFactorIsAttained | relay/relay.go:364-405 | For every k the server admits there is a run whose overlap stays within k and whose recorded bytes are k times the cap |
| RelayLimits.RevocationReachesASoleSession | relay/relay.go:190-220 | While a grant's sessions never overlap, the pair a revocation closes is the one copying |
| RelayLimits.RevocationReachesAllExactlyWithoutOverlap | relay/relay.go:190-220 | A revocation at any moment of a run would close every session there is if and only if no two sessions of the grant ever overlapped |
| RelayLimits.OneRecordNamesOneSession | relay/relay.go:190-220 | Of two sessions of a grant its record names at most one |
| RelayLimits.RevocationMissesAnOverlap | relay/relay.go:190-220 | In every overlap of every run a revocation misses a session, which goes on as it was |
| Transport.Network.Write | bridge/transport/transport.go:266-276 | A write accepts a prefix and fails exactly when it could not take all |
| Transport.ReadAt | bridge/transport/transport.go:258-266 | A random-access read gives what was asked or the rest and the end of file |
| Transport.SendFrom | bridge/transport/transport.go:258-286 | The wire grows by exactly the accepted bytes of the source; no error exactly when everything was accepted |
| Transport.Send | bridge/transport/transport.go:218-256 | Begun over any links and any relay count, the sender has accepted exactly what its dials allow from where each realignment puts it, stops as soon as its count is full, and means no more than that by success; on a transfer nothing was carried of before, the wire holds exactly the source up to its count |
| Transport.FreshTrip | bridge/transport/transport.go:227-239 | On such a transfer the places accepted are the first ones, in order and once each, for every pattern of dials and partial writes, and the relay never leads |
| Transport.RoutesAlternate | bridge/transport/transport.go:240-243 | The reported routes are those used, in order, never the same twice running |
| Transport.Receive | bridge/transport/transport.go:293-339 | The receiver writes what was delivered, in order, cut at the size |
| TransferRuns.InvRun | bridge/transport/transport.go:218-339 | In every run, restarts and losses included, what was accepted is what was delivered, flies or was lost, and the relay never counts more than it took |
| TransferRuns.InOrderExactlyIfAligned | bridge/transport/transport.go:227-239 | What arrives is in order throughout a run if and only if, at each acceptance that matters, the sender's count is what has arrived or is on its way |
| TransferRuns.ReceiverHoldsAPrefix | bridge/transport/transport.go:227-239 | For every run with dials, switches, late records, losses and restarts: whatever is delivered, the output is a prefix of the source throughout if and only if the sender is aligned whenever bytes still needed are accepted |
| TransferRuns.KeptCountsStayAligned | bridge/transport/transport.go:227-239 | A sender that keeps its count over lossless links is always aligned: realigning neither skips nor repeats |
| TransferRuns.ARestartResumesExactly | bridge/transport/transport.go:227-239 | After a restart the next places stand where the relay's record ends, or at zero on the direct route; the order is kept exactly if that is what is coming, and with nothing lost exactly if everything went by the relay, is recorded, and the relay is dialled |
| TransferRuns.RestartsAreHarmlessExactlyIf | bridge/transport/transport.go:229-236 | Over lossless links the output stays a prefix if and only if after each restart nothing needed is accepted until a relay that took everything has answered with all of it |
| TransferRuns.ARestartCanRepeat | bridge/transport/transport.go:229-236 | One byte sent direct, a restart, and a relay that answers zero: the first byte is delivered twice with nothing lost |
| TransferRuns.ARestartCanSkip | bridge/transport/transport.go:229-236 | A record that comes after the restarted sender's dial lets the relay's count lead past a byte never sent |
| TransferRuns.LossIsNeverRepaired | bridge/transport/transport.go:218-256 | Once the sender is done, and keeps its count, the receiver can complete if and only if enough is coming; for a sender that never restarted, if and only if nothing was lost |
| TransferRuns.SendIsARun | bridge/transport/transport.go:218-256 | Send, begun at any moment of any run, is a restart followed by its dials |
| TransferRuns.ReceiveIsARun | bridge/transport/transport.go:293-339 | Receive is a run of deliveries and writes the bytes at the places delivered |
| TransferRuns.EndToEnd | bridge/transport/transport.go:218-339 | The two loops, as runs one after the other on a new transfer: the output is the source in order, and whole exactly when both finished |
| Destination.TransitionsAdvance | protocol/destination.go:113-160 | Every legal transition moves forward |
| Destination.QuarantineOverridesEveryLiveState | protocol/destination.go:147-217 | Quarantine is open to every live state and to no other |
| Destination.PathsAdvance | protocol/destination.go:113-160 | A history's rank strictly increases, so it has at most seven entries |
| Destination.EveryMoveByItsTarget | protocol/destination.go:102-217 | The table of moves read by target: for each state exactly where it can be reached from |
| Destination.SourceActivePathIsForced | protocol/destination.go:113-147 | A history reaches source_active only through verification, one hand-off, awaiting and romm_matched |
| Destination.SourcePathsAreLegal | protocol/destination.go:113-147 | Both hand-offs, and no other state, give a legal such history |
| Destination.TerminalIsExactButForSourceActive | protocol/destination.go:168-172 | Terminal means no further transition for every state except source_active, which quarantine can still leave |
| Journals.MemoryJournal.Append | bridge/ingest/flow.go:281-296 | An illegal move is refused and changes nothing; a legal one is appended |
| Journals.MemoryJournal.Current | bridge/ingest/flow.go:299-308 | The current state is the last one recorded |
| Journals.FileJournal.Append | bridge/ingest/filejournal.go:53-71 | As the memory journal up to faults; after a fault the old or the new history is there |
| Journals.FileJournal.Write | bridge/ingest/filejournal.go:155-207 | Replacing the file is the steps of the atomic recipe; readers find the whole new history exactly if the rename happened and the whole old one otherwise |
| Journals.DecodingUndoesEncoding | bridge/ingest/filejournal.go:140-160 | Reading a history back gives the history that was written |
| Journals.CutFilesAreUnreadable | bridge/ingest/filejournal.go:140-153 | A journal file cut short anywhere is unreadable |
| Journals.ForgottenExactlyIfNotFlushed | bridge/ingest/filejournal.go:40-45 | A first entry reported as recorded is forgotten by a power cut that undoes what is pending, and the transfer admitted again, exactly if the directory flush was refused or the directory's own entry is not on the disk |
| Journals.FileJournal.Current | bridge/ingest/filejournal.go:74-83 | The last recorded state, or none when the file cannot be read |
| Journals.AppendAllKeepsLegal | bridge/ingest/filejournal.go:53-71 | Whoever appends, every history stays a legal path |
| Journals.ReachableHistories | bridge/ingest/flow.go:281-296 | Every history any appends can produce is a legal path of at most seven strictly advancing states, with source_active only at the end of the forced path, for both journals |
| Journals.HistoriesOnlyGrow | bridge/ingest/filejournal.go:53-71 | What is recorded is never rewritten |
| Journals.NeverReceivesTwice | bridge/ingest/flow.go:285-292 | A transfer that has begun is never admitted to begin again |
| Digests.CompareFields | protocol/digest.go:150-189 | The field-by-field walk finds the strongest agreement, or a contradiction anywhere |
| Digests.StrengthIsOfTheFields | protocol/digest.go:136-189 | The strength by the fields both sides carry: SHA-256 strong, else SHA-1 or MD5 catalogue, else CRC-32 weak, else none; no agreement if and only if some field on both sides differs |
| Digests.LowerIgnoresCaseAlone | protocol/digest.go:96-102 | Normalized hashes are equal exactly if they differ in the case of letters alone |
| Digests.CompareIsSymmetric | protocol/digest.go:150-189 | Comparison depends neither on the side nor on letter case |
| Digests.NormalizedIsIdempotent | protocol/digest.go:96-102 | Normalizing twice is normalizing once |
| Reconcile.ClassifyIsByEvidence | bridge/ingest/reconcile.go:225-247 | A match is declared if and only if SHA-256 agrees, nothing contradicts it and the platform fits |
| Reconcile.AwaitIngestion | bridge/ingest/reconcile.go:156-218 | The poll stops at the first round that ends it and returns that round's verdict or a timeout |
| Flows.Flow.Advance | bridge/ingest/flow.go:129-140 | One attempt to advance, with the moderator and journal faults between its check and its append |
| Flows.Advanced | bridge/ingest/flow.go:129-140 | A successful advance adds exactly its own state to the path |
| Flows.Flow.Stage | bridge/ingest/flow.go:163-199 | A transfer the journal knows is refused before anything is staged; otherwise staging ends as the evidence settles, with the payload kept or removed accordingly, or goes on with a verified payload |
| Flows.Flow.Check | bridge/ingest/flow.go:185-199 | The transfer goes on exactly when what was read back agrees on SHA-256 and contradicts nothing |
| Flows.Flow.HandOff | bridge/ingest/flow.go:201-236 | Exactly one hand-off, by the configured mode |
| Flows.Flow.Wait | bridge/ingest/flow.go:238-250 | What RomM says is recorded before it is acted on |
| Flows.Flow.Republish | bridge/ingest/flow.go:252-266 | A source is activated only after the manifest names it |
| Flows.Flow.Receive | bridge/ingest/flow.go:149-266 | A reported state is always the one the evidence settles, undisturbed it is always reported, and it is the journal's last one exactly when the final advance was not blocked; a transfer the journal knows is refused with nothing staged; and whatever is reported, every state in a new transfer's journal has its evidence |
| Flows.SourceActiveIsEarned | bridge/ingest/flow.go:238-266 | The evidence settles source_active if and only if the payload was stored and read back with SHA-256 agreement, handed over, proved by RomM's observation and named by the manifest |
| Flows.CancelledExactlyIf | bridge/ingest/flow.go:169-179 | The evidence settles cancelled if and only if there was no room, the payload did not arrive, or an accepted payload was refused by the publisher |
| Flows.ConflictExactlyIf | bridge/ingest/flow.go:184-215 | It settles verification_conflict if and only if the payload arrived and was not accepted on read-back, or was accepted and its upload failed |
| Flows.ReviewStatesExactlyIf | bridge/ingest/flow.go:238-250 | It settles romm_unmatched if and only if the first round to identify the item or give up identifies it without proof, and ingestion_timeout if and only if that round does not identify it |
| Flows.QuarantinedExactlyIf | bridge/ingest/flow.go:252-262 | It settles quarantined if and only if everything was proved and the manifest could not be republished |
| Flows.UnclassifiedExactlyIf | bridge/ingest/flow.go:149-160 | No state is settled if and only if the flow is not set up for the transfer; an error comes with a state if and only if upload, publication or republication failed |
| Flows.JournalStatesAreProved | bridge/ingest/flow.go:238-266 | If the journal holds romm_matched or source_active, reported or not, the payload was stored, read back with SHA-256 agreement, handed over and proved by RomM's observation, and for source_active the manifest names it |
| Flows.JournalFailuresAreProved | bridge/ingest/flow.go:169-262 | A journal entry cancelled, verification_conflict or quarantined has its evidence whatever was reported, except that a moderator may quarantine at any time |
| Flows.JournalVerdictsAreProved | bridge/ingest/flow.go:238-250 | So has an entry romm_unmatched or ingestion_timeout: the deciding round |
| Ingest.StagedMeansAccepted | bridge/ingest/flow.go:180-199 | On the real staging area the flow goes on past staging exactly if the bytes on the disk are read back and accepted |
| Ingest.PublishedStatesAreInTheLibrary | bridge/ingest/flow.go:218-266 | Whoever reads published_to_filesystem or a later state from the journal finds the file in the library, whole, as staged and accepted; for good exactly if the directory flush was honoured and the directory's own entry was on the disk |
| Ingest.CancelledMayHaveReachedTheLibrary | bridge/ingest/flow.go:223-231 | A refused publication is cancelled on the grounds that nothing reached the library; that is so if and only if the link was not made or its directory could be opened |
| Flows.SettledStatesAreTerminal | bridge/ingest/flow.go:142-148 | Every state the flow can report is one it calls terminal |
| Flows.AwaitedIs | bridge/ingest/reconcile.go:156-218 | The wait's outcome is the verdict of the first round that ends it, and one of three states |
| Flows.AwaitedMatch | bridge/ingest/reconcile.go:156-218 | The wait ends in romm_matched, romm_unmatched or ingestion_timeout if and only if the deciding round proves the match, identifies the item without proof, or does not identify it |
| Publication.PromiseIsOfThePayload | bridge/destination/staging.go:198-212 | A digest carrying the payload's SHA-256 accepts the payload exactly if nothing else recorded contradicts it, and otherwise only contents with that SHA-256 |
| Publication.Staging.Receive | bridge/destination/staging.go:107-124 | The staged file holds what was stored, flushed exactly when all of it arrived, and nothing else changes |
| Publication.Staging.Verify | bridge/destination/staging.go:186-213 | Verification succeeds exactly when the staged bytes can be read and agree on SHA-256 with nothing contradicting, and it reports what was received |
| Publication.Staging.Abandon | bridge/destination/staging.go:127-133 | Removing a staged name; a missing one is no error |
| Publication.Staging.CleanupAbandoned | bridge/destination/staging.go:142-177 | Exactly the staged names untouched for the window are removed and counted; the error says that some entry, one that had vanished included, could not be looked at or removed |
| Publication.SweptGrows | bridge/destination/staging.go:155-176 | The names removed, entry by entry |
| Publication.AbandonedIsRemovedOrAnError | bridge/destination/staging.go:152-180 | An abandoned file is removed or reported, never both; an unreadable age is reported and the file stays; everything else is left alone |
| Publication.ReceivedIsFlushedExactlyIf | bridge/destination/staging.go:94-125 | A staged file holds what fitted and is flushed if and only if the stream ended properly, all of it fitted and the flush was honoured |
| Publication.AbandonedExactlyIf | bridge/destination/staging.go:131-165 | A staged file is abandoned if and only if it was last written at least the window ago, 48 hours unless a positive one is given; no other entry ever is |
| Publication.Publisher.Copy | bridge/destination/publish.go:350-394 | The copy succeeds exactly when it is whole, flushed and hashes to what was promised; otherwise it leaves no name unless removal failed |
| Publication.Publisher.Publish | bridge/destination/publish.go:269-342 | Publication succeeds under exactly one condition and reports an existing file exactly when one is there or came first; the files it leaves are those PublishedIsWholeOrAbsent speaks of |
| Publication.PublishedIsWholeOrAbsent | bridge/destination/publish.go:260-342 | Under exactly one condition the path then shows the staged bytes whole, whatever the call reports, and for good exactly if the directory flush was honoured and the directory's own entry was on the disk; otherwise nothing of the transfer is in the library; nothing already there is touched |
| Publication.ReceiveIsARun | bridge/destination/staging.go:107-124 | Receiving is a run of the machine's steps |
| Publication.PublishIsARun | bridge/destination/publish.go:269-342 | Publishing is a run of the machine's steps, with a rival file appearing between check and link |
| PublicationRuns.LinkKeeps | bridge/destination/publish.go:309-319 | At the link the payload is whole, flushed, under a free name and written by nobody |
| PublicationRuns.WriteKeeps | bridge/destination/staging.go:107-124 | A file being written has no name but its own, so no write reaches the library |
| PublicationRuns.InvNext | bridge/destination/publish.go:269-394 | Every step keeps the invariant and every library file |
| PublicationRuns.PowerCutKeeps | bridge/ingest/flow.go:163-167 | A power cut keeps the invariant if and only if no transfer it makes the journal forget leaves a staged name that shares its file |
| PublicationRuns.HonouredRunsAreProper | bridge/ingest/filejournal.go:194-207 | If no flow starts on a journal entry the disk does not hold and disks store what they are given, every run meets the condition of the results below |
| PublicationRuns.InvRun | bridge/destination/staging.go:107-213 | No run of staging, publication, cleanup, outsiders and power cuts, which may undo what was not flushed, changes or loses a file the disk holds in the library |
| PublicationRuns.LibraryShowsOnlyWholeFiles | bridge/destination/publish.go:260-268 | Whatever the library shows at any moment is an outsider's file untouched or a whole payload its promise accepts, and what the disk once holds there stays unchanged ever after |
| PublicationRuns.PublicationsWereAskedFor | bridge/ingest/flow.go:149-266 | Every publication delivers what some transfer of the run expected at that path |
| PublicationRuns.UndisturbedTransferIsPublished | bridge/destination/publish.go:269-342 | An undisturbed transfer is published on either filesystem; with every flush honoured it is there for good exactly if its folder's own entry was on the disk; the staged name survives exactly when its removal fails or the payload was copied |
| PublicationRuns.TheFirstFileOfAFolderCanVanish | bridge/destination/publish.go:280-330 | With every flush honoured, a power cut takes the first file of a new folder with the folder, and takes nothing of a folder that is on the disk |
| PublicationRuns.CopyIsNotReadBack | bridge/destination/publish.go:344-388 | Whatever the library's filesystem stored of a copy is published, and the library is as promised if and only if the promise accepts that |
| Forgetting.ForgettingWouldTruncateTheLibrary | bridge/ingest/flow.go:163-167 | In one run of publication, power cut and a second receipt, the library file survives if and only if the journal's first entry had been flushed; otherwise the staged name, which a power cut can bring back, empties it |
| Forgetting.ACutIsSafeExactlyIfRecalled | bridge/ingest/flow.go:163-167 | After a power cut in any state, no continuation changes or removes a file the library still has if and only if no forgotten transfer left a staged name of one |
| Forgetting.ApartRun | bridge/destination/staging.go:107-124 | In every proper run only the library's names share files with others |
| JournaledRuns.CoupledRun | bridge/ingest/filejournal.go:53-83 | With the journal on its files, every run is a run of the publication machine, and the transfers it takes for known and recorded are those a reader finds in the journal and those the disk holds |
| JournaledRuns.TheJournalProtectsTheLibrary | bridge/ingest/filejournal.go:155-207 | If the journal's directory is on the disk and its flush is honoured for each first entry, every library file is an outsider's own or whole and accepted, and what the disk holds stays |
| Inventory.IsPermitted | bridge/publish/publish.go:65-95 | The rules, list by list, permit exactly the holdings that break none of the five rules a holding is withheld for |
| Inventory.PermittedBreaksNoRule | bridge/publish/publish.go:65-95 | What the policy permits and what each reason forbids are complementary |
| Inventory.EachReasonExactlyIf | bridge/publish/publish.go:310-328 | Each reason in the owner's own lists: it is given if and only if its rule is broken and no earlier one |
| Inventory.PreviewPolicy | bridge/publish/publish.go:289-307 | The preview counts every holding once, permitted ones under their platform and with their bytes, withheld ones under the first rule they break |
| Inventory.WithheldReason | bridge/publish/publish.go:310-328 | The reason given is the first rule, in the order they are applied, that the holding breaks |
| Inventory.PreviewIsExactWithoutRepeats | bridge/publish/publish.go:264-270 | The preview never promises less than the snapshot publishes, and is exact if and only if no two permitted holdings are the same file |
| Inventory.Validate | protocol/manifest.go:261-289 | A manifest is valid exactly when every item is valid and publishable and no file appears twice |
| Inventory.SharedIsWhatIsPermitted | bridge/publish/publish.go:153-167 | What a Swarm sees of each file is the first permitted holding, for exactly the files with one |
| Inventory.IndexHolds | bridge/publish/publish.go:330-336 | The index of a list without repeats holds exactly its items |
| Inventory.SortedItems | bridge/publish/publish.go:173-175 | Sorting changes the order and nothing else |
| Inventory.Collect | bridge/publish/publish.go:153-167 | Filter and drop repeats |
| Inventory.TakeSnapshot | bridge/publish/publish.go:148-190 | The manifest is exactly what the policy shares in ascending order; empty, invalid and wrapped cases are refused as the source does |
| Inventory.SnapshotIsDetermined | bridge/publish/publish.go:173-175 | Two scans of the same holdings publish the same list |
| Inventory.Compare | bridge/publish/publish.go:213-240 | The two walks over the maps find exactly the entries called for, in whatever order the maps yield keys |
| Inventory.Diff | bridge/publish/publish.go:198-262 | The delta tells exactly what changed, "nothing changed" is reported exactly when the two agree, and refusals are characterised |
| Inventory.DeltaIsDetermined | bridge/publish/publish.go:213-240 | The walks over the maps may yield keys in any order: the sorted delta is always the same |
| Inventory.SilenceIsAgreement | bridge/publish/publish.go:242-244 | No entries if and only if previous and current agree |
| Inventory.ApplyAt | protocol/manifest.go:314-325 | Applying a delta does to each file what its one entry says |
| Inventory.DeltaReachesTheSnapshot | bridge/publish/publish.go:192-262 | Patch correctness: from any previous manifest the delta reaches exactly the shared files, alike in everything a Swarm needs to hear |
| Inventory.SecondDeltaIsEmpty | bridge/publish/publish.go:192-197 | A second diff of the same holdings is empty |
| Inventory.DeltaLeaksNothing | bridge/publish/publish.go:61-95 | Every item a delta carries is a verified holding of that file, on neither exclusion list, within the size limit and of a shared platform |
| Inventory.ManifestsHoldWhatTheOwnerShares | bridge/publish/publish.go:144-167 | A manifest's items are such holdings, and every such holding's file is in it |
| Inventory.AnUpdateIsSentExactlyIf | bridge/publish/publish.go:345-358 | A known file that stays visible gets an update if and only if its SHA-256, platform, availability, adapter or reference differs, and no other entry |
| Inventory.EntriesComeInOrder | bridge/publish/publish.go:242-247 | A delta lists additions, withdrawals and updates in the order of their names, each ascending by file |
| Inventory.PublishedItemsAreIdentified | protocol/manifest.go:221-243 | An item is valid and publishable if and only if it is verified with a reference and carries the file id of its own SHA-256, a platform and an adapter |
| Inventory.EntriesAreValid | protocol/manifest.go:351-392 | The entries of a delta are valid exactly when what is withdrawn had a well-formed id |
| ReferenceSet.HoldersCarry | reference/set.go:53-74 | The positions listed for a hash are exactly those of the entries carrying it |
| ReferenceSet.Set.BuildIndex | reference/set.go:53-74 | The four tables list every hash's entries, whatever its letter case |
| ReferenceSet.Set.Candidates | reference/set.go:94-110 | The candidates are exactly the entries agreeing on the strongest hash any entry shares |
| ReferenceSet.DecisiveIsTheStrongest | reference/set.go:94-110 | The decisive hash is SHA-256 if any entry agrees on it, else SHA-1, else MD5, else CRC-32 |
| ReferenceSet.Set.Lookup | reference/set.go:94-131 | A lookup returns exactly those candidates the full comparison accepts, each once, best first |
| ReferenceSet.JudgedAre | reference/set.go:112-121 | The candidates the comparison accepts, with their strength |
| ReferenceSet.AgreementIsAMatch | protocol/digest.go:150-189 | Agreement on one hash without contradiction is already a match |
| ReferenceSet.LookupMissesOnlyWhatLacksTheDecisiveHash | reference/set.go:88-93 | Against a full scan, a lookup misses exactly the matches that do not carry the decisive hash |
| ReferenceSet.LookupIsTheScanOnAUniformCatalogue | reference/set.go:88-93 | Where the whole catalogue carries that hash, or nothing agrees, lookup and scan coincide |
| ReferenceSet.LookupMissesBesideAStrongerEntry | reference/set.go:98-110 | A concrete catalogue where they differ |
| Names.WhiteSpaceIsSixCharacters | reference/name.go:81-154 | What is trimmed is exactly the six ASCII white-space characters |
| Names.PeelTags | reference/name.go:114-150 | The loop computes the split and always ends |
| Names.Reverse | reference/name.go:145-148 | Reversing in place |
| Names.AppendedTagIsSplitOff | reference/name.go:109-150 | A tag appended to any name is split off again with the rest unchanged, if and only if its text is free of its own opening bracket |
| Names.PrintedTagsSplitOff | reference/name.go:109-150 | Behind any name at all, printed tags are split off in order and the name splits as before |
| Names.PrintThenSplit | reference/name.go:109-150 | Splitting what was printed gives back the title and the tags in order |
| Names.AppendedTagKeepsTheKey | reference/name.go:78-107 | Appending a tag never changes the canonical key, with exactly one kind of exception: a name that is nothing but a square tag beginning like the BIOS marker |
| Names.NormalizedKeyIsNormal | reference/name.go:152-155 | A normalized title is its own normal form |
| Profile.FirstRegionIsFirst | reference/profile.go:83-106 | The rank is the first allowed region the entry belongs to |
| Profile.RegionPriority | reference/profile.go:85-106 | The nested walk finds that rank |
| Profile.IsEligible | reference/profile.go:109-130 | The three filters |
| Profile.Apply | reference/profile.go:144-189 | Without the rule of one exactly the eligible entries; with it one per game, and nothing else; what makes it the best is in the rows below |
| Profile.Best | reference/profile.go:168-187 | The first of the sorted rivals has no better eligible rival |
| Profile.OneEntryPerGame | reference/profile.go:144-189 | Exactly one entry of each game with an eligible one is included |
| Sorting.TextOrderIsLexicographic | reference/profile.go:181-182 | Names compare by their first differing character, and a name before any longer one it begins |
| Profile.TheChosenEntryIsTheBest | reference/profile.go:168-184 | Against every eligible rival the chosen entry has no lower place on the region list, at equal place no older revision, and at equal both no later name |
| Profile.AnUntaggedEntryComesLast | reference/profile.go:86-93 | An entry without a region is chosen only if none of its rivals carries one |
| Profile.EligibleExactlyIf | reference/profile.go:109-130 | Eligible exactly by the profile's own lists: the BIOS rule, no excluded flag, an allowed region or none where that is allowed |
| Profile.FoldingIgnoresCaseAlone | reference/profile.go:83-118 | Regions and flags are compared but for the case of letters, and nothing else |
| Profile.ChoiceIgnoresOrder | reference/profile.go:168-184 | Permuting the catalogue leaves the chosen region, revision and name unchanged |
| Risk.NotedIsSummary | preservation/risk.go:182-215 | Gathering one more claim |
| Risk.DomainsAreOfFreshClaims | preservation/risk.go:196-267 | A Bridge backs a failure domain exactly through a claim that says available and was verified within the window and not in the future; no domain named means the unknown one |
| Risk.Summarize | preservation/risk.go:174-215 | Each Bridge's claims are gathered whatever their order |
| Risk.AddBridge | preservation/risk.go:218-236 | One Bridge backs at most one domain; contradictory domains count as unknown |
| Risk.Assess | preservation/risk.go:159-251 | The assessment is a function of the set of claims |
| Risk.OrderAndRepetitionDoNotMatter | preservation/risk.go:171-178 | Order and duplicates of records do not matter |
| Risk.CountsAreOrdered | preservation/risk.go:140-153 | Independent is at most Online, which is at most Confirmed |
| Risk.OneBridgeAddsAtMostOne | preservation/risk.go:228-236 | A new alias with any records raises Independent by at most one and never lowers it |
| Risk.ANewBridgeHurtsOnlyTheStale | preservation/risk.go:239-250 | In the order of RiskOrder, a new Bridge makes a file more urgent if and only if the file was stale and the newcomer brings a domain that takes the independent count into the at-risk range and no further |
| Risk.AVerifiedCopyCanRaiseTheUrgency | preservation/risk.go:360-364 | Under the default rules a verified copy beside one stale Bridge moves the file from stale to at risk, which is listed as more urgent |
| Risk.IndependentRisesByADomain | preservation/risk.go:218-236 | The independent count rises by one exactly when the new Bridge brings a failure domain not yet counted, and by nothing otherwise |
| Risk.DefaultRulesMeanWhatTheySay | preservation/risk.go:113-136 | Under the default rules one independent copy is at risk, two fragile, three or more resilient, and the other states mean what they say |
| Risk.ComputeCoverage | preservation/risk.go:316-358 | Every expected file is assessed once |
| Risk.CoverageBalances | preservation/risk.go:269-305 | The books balance under any rules up to an exact term, which is zero when every threshold is at least one |
| Streams.Source.ReadFull | verify/genesis.go:183-190 | Reading until the buffer is full over a source with short reads |
| Smd.PositionsAreInverse | verify/genesis.go:192-200 | The two position maps are mutual inverses |
| Smd.HalvesAreOddAndEven | verify/genesis.go:138-204 | In every block the first half of the stored bytes are the odd bytes of the plain image and the second half the even ones |
| Smd.Inverses | verify/genesis.go:192-204 | Interleaving and de-interleaving undo each other on whole blocks |
| Smd.FirstBlock | verify/genesis.go:183-204 | The block-wise function splits at a block |
| Smd.Deinterleaver.Fill | verify/genesis.go:183-204 | One block is read and de-interleaved, or the stream ends as it must |
| Smd.Deinterleaver.Read | verify/genesis.go:165-180 | A read hands over the next bytes of the pure result, and an error comes only at its end |
| Smd.ReadAll | verify/genesis.go:138-180 | Any sequence of buffer lengths over short reads yields the pure de-interleave |
| Smd.ShapedIsAHeaderAndBlocks | verify/genesis.go:116-120 | The accepted sizes are a 512-byte header and at least one 16 KiB block, and nothing between |
| Smd.Canonicalize | verify/genesis.go:116-136 | An image is accepted exactly when it is a header and whole blocks, and the predicted size is what is streamed |
| Smd.GenesisSMD | internal/romfixture/romfixture.go:251-278 | The interleaver's image is the copier's header, byte for byte, and the interleaved blocks |
| Smd.RoundTrip | internal/romfixture/romfixture.go:245-278 | What the interleaver builds streams back as the original |
| Crc16.Divide | verify/nds.go:59-72 | The inner loop is eight divisions |
| Crc16.Crc16Modbus | verify/nds.go:59-72 | The nested loops compute the checksum |
| Crc16.KnownChecksums | verify/nds.go:59-72 | Two published values of the checksum |
| Crc16.StepIsSound | verify/nds.go:59-72 | One byte step loses nothing and tells byte pairs apart |
| Crc16.BurstsAreNoticed | verify/nds.go:55-72 | Any change confined to one byte or two adjacent bytes changes the checksum |
| Crc16.DamagedHeaderIsRejected | verify/nds.go:83-94 | Such damage to a valid header makes it invalid |
| Crc16.ResidueIsZero | verify/nds.go:59-72 | A register fed its own two bytes ends at zero, and no other does |
| Crc16.ValidHeadersHaveNoResidue | verify/nds.go:83-94 | The checksum over region and stored value is zero exactly for valid headers |
| Nds.PadReader.Read | verify/nds.go:275-288 | Padding bytes until they run out, then the end |
| Nds.Reconstruction.Read | verify/nds.go:255-262 | A read hands over the next bytes of dump and padding |
| Nds.ReadAll | verify/nds.go:255-262 | Any sequence of read sizes yields dump and padding, and every read with a non-empty buffer makes progress until all is out |
| Nds.Canonicalize | verify/nds.go:199-264 | Too short is refused; otherwise the stream is the reconstruction and the predicted size its length |
| Nds.PaddedToItsCapacity | verify/nds.go:199-264 | In the bytes of the dump: exactly when its capacity field and its used size call for padding, to what length, and that the padding is 0xFF |
| Nds.HeaderDecides | verify/nds.go:213-229 | The decision fields lie in the header |
| Nds.FirstByteWeighsLeast | verify/nds.go:226-230 | The used size is read with its first byte least significant |
| Nds.CapacitiesDouble | verify/nds.go:74-81 | The capacity field means 128 KiB doubled that many times, up to 512 MiB, and nothing beyond |
| Nds.TrimmedDumpsComeBack | verify/nds.go:228-262 | A cut full dump comes back if and only if nothing was cut, or the cut kept the used part and removed only padding |
| Nds.ReconstructIsIdempotent | verify/nds.go:199-264 | Canonicalizing twice is canonicalizing once |
| Nds.OnlyTrimmedDumpsChange | verify/nds.go:213-262 | Exactly the trimmed dumps are changed, each into a full one |

## Left out

- HTTP handlers, templates, sessions, the RomM client, command-line programs, JSON and SQL: plumbing, or services whose answers are inputs here.
- Event recording, notes, log lines, display names and the other cartridge detectors: single-branch facts.
- Hash functions, base32, HMAC and random generation: abstract functions, injective where the code needs it, or new values.
- Bridge, Swarm and alias identifiers are not parsed; the inventory model asks only that they are not empty.
- The membership rows written beside the credential when an invitation is redeemed; the map of mutexes itself and its growth.
- Relay read deadlines, the two-hour limit per grant and rate limiting; connections refused for a malformed frame never enter the model.
- Zip archives, path resolution, symbolic links, permissions and device queries: "same filesystem" and "has room" are inputs. The preflight of a publication configuration is not modelled.
- Manifest fingerprints: the item list they are computed from is proved determined, the digests are not modelled.
- Region, language and revision tags of names, revision ranks: tables.
- White space in names is ASCII white space and letter case folds for ASCII letters only.
- `bridgeconfig` and `swarmconn` stores use the credential file's save recipe and are not repeated.
- Transport.Send: says nothing of termination, because dials may keep succeeding and failing for ever; the script of dials is finite here and running out of it is a cancellation.
- Transport.Receive: failures of the destination writer are not modelled; a copy ends when the transfer is full or the connection ends.
- TransferRuns.InvRun: the sender restarts, the receiver and the relay do not; either would begin its count at zero.
- PublicationRuns.InvRun: outsiders add files to the library but do not change or remove them.
- Publication.Publisher.Publish: one rival at most takes the path during the call; any number of them come and go in `PublicationRuns`.
- Journals.FileJournal.Append: a failed read is one fault; the JSON text of an entry is one mark of the file.
- Sorting.Sort: stands for the library sort; ties are ordered some way, and no result depends on which.
