# Verified model of the credential convergence protocol

Pangaea keeps one credential file per account in step across many nodes. A server runs one
*mediator* per profile: it collects what the nodes report about their files, selects for
every account the freshest valid one as its *truth*, and pushes that to the nodes that hold
something else. A node applies a push to its own file under a lock, with a backup and an
atomic replacement, and reports again when its watcher sees the change.

This project models that protocol and the state machines it rests on, and proves what they
promise. The code that changes state step by step is modelled by classes and methods
proved against relations and functions on values; the theorems are about those.

| file | models |
|---|---|
| `Formats.dfy` | snapshots of the three formats, their freshness order and local validity check |
| `Listing.dfy` | sorted, duplicate-free listings of names |
| `MediatorSpec.dfy` | what one mediator event may do, one account at a time |
| `MediatorRuns.dfy`, `MediatorLaws.dfy` | what holds along every run, and the mediator's promises |
| `MediatorContents.dfy` | what messages make of candidates, and what truths, pushes and notices contain |
| `Journal.dfy` | what the actor does to the world outside, and how that follows from the specification's events |
| `Mediator.dfy` | the actor itself: maps, loops, pushes; it takes only the specified steps, and does nothing else to the world |
| `SnapshotBytes.dfy` | byte buffers in the heap: copies, overwriting with zeros, and the buffers the mediator keeps |
| `ClusterSystem.dfy`, `ClusterSteps.dfy`, `Convergence.dfy` | mediator, messages in flight and files as one system; convergence |
| `Disk.dfy`, `Apply.dfy`, `ApplySpec.dfy` | a file system that can fail or stop anywhere, and applying a push on it |
| `Hub.dfy` | the session table with its two indexes |
| `Queue.dfy`, `Watcher.dfy` | bounded drop-oldest queues; debounce and stable window |
| `Handshake.dfy` | JWT by header or first frame, and runs of reconnects |
| `ShellWords.dfy`, `RemoteCommand.dfy`, `RemoteCommandParses.dfy` | POSIX word splitting, and the remote command line it undoes |

## Reading the model

- Nondeterminism stands for everything the code leaves open: the order in which a map is
  iterated, the order in which channels are served, clock readings (never decreasing), which
  sessions are registered when a push pass looks, which sends succeed, and which file system
  operations fail.
- A fingerprint is the symbolic hash of some bytes, so it is collision-free; base64 text is
  undecodable, or nothing but line breaks, or the encoding of some bytes. Decoding a
  credential file is a function of the profile from bytes to its expiry fields, or nothing.
- The world that the actor acts on keeps account of every answer of the hub, every push handed
  to a node's connection, every send that succeeded and every notification. What is proved
  about pushes is thereby about what was sent, also by a send that failed half-way.
- The disk records every state it passes through. A statement about all recorded states is a
  statement about a crash at any of them.
- The lexer covers POSIX.1 Shell Command Language, sections 2.2.2 (single quotes), 2.2.3
  (double quotes, with `$NAME`) and the token recognition of 2.3 that the commands use. It
  fails on anything else a shell would interpret, so a successful result relies on those
  rules only.

Where the code and its comments differ, the model follows the code:

- A comment says that clients check the account of a push before applying it
  (`internal/transport/proto.go:138-141`); `applyTruth` does not
  (`internal/client/apply.go:35-78`), and never names an account in its ack. The partition by
  account is therefore stated about the mediator's candidates.
- A comment says that any failure of an atomic write removes the temporary file
  (`internal/safeio/atomic.go:18-20`); the removal itself may fail, so the model lets
  temporary files remain.
- A failed apply leaves the old contents *except* when it had no backup: there was no file, or
  `stat` failed on one (`internal/client/apply.go:117-147`). `ApplySpec.FailureKeepsFile` and
  `ApplyPath.Ended` say exactly when.
- "At most one rejection" in auto mode is not unconditional: a server that waits in vain for
  the first frame rejects in the same words. `Handshake.LateFramesRejectAgain` is the
  counterexample, `Handshake.RejectionsExactly` gives the exact condition on the network for a run and
  `Handshake.AutoModeSettles` for one attempt.
- A change of truth is suppressed while the old one cools down, and nothing tries again when the
  cooldown is over (`internal/server/mediator.go:455-464`): without further reports the files
  stay different. `Convergence.CoolingDiverges` is such an input and
  `Convergence.ConvergesExactly` the exact condition for an account.
- Applying compares fingerprints, not freshness (`internal/client/apply.go:82-156`), so a push
  that is older than a local refresh undoes it. `ApplySpec.ApplyLowersExactly` says exactly
  when, and `ApplySpec.StalePushExample` is such an input.
- Validity is upward closed for every clock reading but those just before Go's zero time,
  which stands for "no expiry"; `Formats.ValidityUpwardClosed` gives the exact condition.
- When equally fresh candidates differ in content, the truth depends on map order.
  `MediatorLaws.AnyFreshestMayWin` says which truths are possible, exactly.

## Model

| member | source | states |
|---|---|---|
| Formats.CompareIsTotalPreorder | pkg/formats/codexauth/compare.go:16-48 | the comparison prefers the later expiry and, for Codex alone, between equal ones the later last refresh; it is total, antisymmetric in sign and transitive, also when one side is strict: what a fold that keeps the greater needs to end with a maximum |
| Formats.ValidityUpwardClosed | pkg/formats/codexauth/validate.go:39-61 | everything at least as fresh as a valid snapshot is valid, if and only if no instant lies strictly between the skewed clock and the zero time |
| Formats.FreshestViableIsFreshest | pkg/formats/geminioauth/validate.go:29-47 | when some snapshot is valid, a maximum over the viable ones is valid itself (never one with an unreadable expiry) and is a maximum over all |
| Listing.LessIsLexicographic | internal/server/mediator.go:122-123 | names are sorted by the first code point in which they differ, a proper prefix first |
| Listing.ListingUnique | internal/server/mediator.go:122-123 | sorting and compacting a set of names has one possible outcome |
| Listing.SortNames | internal/server/mediator.go:621-631 | whatever order a map yields its keys in, collecting and sorting them gives that one listing |
| MediatorActor.Mediator.Run | internal/server/mediator.go:226-247 | for every sequence of messages the actor's states form a run of the step relation, from empty maps to its present state, and the world has seen exactly the effects of the run's events |
| MediatorActor.Mediator.OnReport | internal/server/mediator.go:249-318 | a report is one step: undecodable ones change nothing, unparsable ones replace the candidate without a selection, others are re-validated at a clock reading, downgraded by a live check at most, and reselected |
| MediatorActor.Mediator.OnAbsent | internal/server/mediator.go:320-334 | an absence report is one step: the candidate becomes absent and a selection follows |
| MediatorActor.Mediator.OnAck | internal/server/mediator.go:336-362 | an ack is one step that changes only the candidate, creating an absent one with the ack's account if there was none |
| MediatorActor.Mediator.OnDisconnect | internal/server/mediator.go:242-244 | a disconnect is one step: the candidate goes and a selection follows |
| MediatorActor.Mediator.Reselect | internal/server/mediator.go:367-534 | the nested loops reconcile every account independently of the order in which they visit them, drop exactly the lost truths, and rebuild the mirror |
| MediatorActor.Mediator.BucketViable | internal/server/mediator.go:369-378 | the buckets hold exactly the viable candidates of each account, and no bucket is empty |
| MediatorActor.Mediator.DropLost | internal/server/mediator.go:386-418 | exactly the truths without a viable candidate are dropped, each with its notice |
| MediatorActor.Mediator.SelectTruth | internal/server/mediator.go:441-531 | one account's selection touches no other account and is one the specification allows, cooldown included, and the world has seen its events and nothing more |
| MediatorActor.Mediator.Best | internal/server/mediator.go:442-447 | the fold ends with a viable candidate of the account that no viable candidate beats |
| MediatorActor.Mediator.PushTruth | internal/server/mediator.go:542-612 | the hub is asked once, the account's push is handed once to exactly the specified targets and to no other node, a notice follows if some send succeeded, and the recorded pass says just that |
| MediatorActor.Mediator.SendAll | internal/server/mediator.go:586-610 | each target is tried once with this push, whatever the sends before it returned |
| MediatorJournal.StaysAccounted | internal/server/mediator.go:542-612 | when one account's history grows by some events and the world sees just their effects, what the world has seen is again exactly what the histories say |
| MediatorActor.Mediator.UpdateMirror | internal/server/mediator.go:112-138 | the mirror equals the truths, each with the sorted nodes of its account |
| MediatorRuns.NextKeeps | internal/server/mediator.go:226-247 | every step keeps the whole-run invariant: candidates and histories are genuine, histories replay to the truths, notices balance, selections are spaced, viable accounts have truths, the mirror matches |
| MediatorRuns.RunKeeps | internal/server/mediator.go:226-247 | that invariant holds in every state of every run |
| MediatorLaws.Optimality | internal/server/mediator.go:441-478 | after a reselect an account's truth carries the fingerprint of a viable candidate such that none of the account expires later nor, for Codex, expires with it and was refreshed later; or it is the old one still in its cooldown |
| MediatorLaws.AnyFreshestMayWin | internal/server/mediator.go:441-447 | outside the cooldown the possible truths are exactly those of the candidates with the latest times |
| MediatorLaws.OrderIndependence | internal/server/mediator.go:369-447 | when equally fresh viable candidates agree in content, two reselects of the same state end with the same fingerprints in whatever order maps are iterated |
| MediatorLaws.TruthDomain | internal/server/mediator.go:386-427 | right after a reselect the accounts with a truth are exactly those with a viable candidate, and the mirror lists each one's nodes in order |
| MediatorLaws.TruthAlwaysMirrored | internal/server/mediator.go:112-138 | in every reachable state each account with a viable candidate has a truth and the mirror shows exactly the truths |
| MediatorLaws.OnlyTriggersSelect | internal/server/mediator.go:226-280 | exactly the absences, disconnects and parsable reports lead to a selection; any other message changes nothing but candidates |
| MediatorLaws.OnePassOutsideCooldown | internal/server/mediator.go:449-514 | outside the cooldown a selection makes exactly one push pass for an account with a viable candidate, whether or not its truth changes |
| MediatorLaws.Routing | internal/server/mediator.go:554-584 | over every run, a push pass sends the account's truth, with each of its fields, under the profile's name and path, from a node that holds it, to exactly the registered other nodes of that account that are stale, or all of them in push-to-all mode |
| MediatorLaws.NoTargetsMeansInSync | internal/server/mediator.go:511-584 | over every run, a message that triggers a selection outside the cooldown leads to exactly one pass for an account with a viable candidate; in stale-only mode it has no targets if and only if every registered node of the account, the source included, carries the truth's fingerprint |
| MediatorLaws.Provenance | internal/server/mediator.go:466-478 | over every run, each truth and each push of a recorded pass decodes to bytes that a node reported under that same account, hashing to the fingerprint carried; the source of a push is such a node |
| MediatorLaws.WorldSeesTheSteps | internal/server/mediator.go:226-247 | along every run of the actor, an answer, send or notification has taken place if and only if some step's events for some account call for it |
| MediatorLaws.PushesReachTheirAccount | internal/server/mediator.go:542-610 | whatever was handed to a node's connection was at that moment the truth of the account the node is in, the hub had listed the node, and another node had reported these very bytes under this account |
| MediatorLaws.CooldownSpacing | internal/server/mediator.go:449-478 | over every run, two selections for an account with no loss between them are at least the cooldown apart |
| MediatorLaws.RestoredAndLostAlternate | internal/server/mediator.go:386-418 | with a notifier, an account's restored and lost notices alternate from restored on, and restored minus lost is 1 exactly while it has a truth |
| MediatorLaws.NoRegression | internal/server/mediator.go:441-478 | over every run, as long as a viable candidate still carries the old truth, the next truth is at least as fresh |
| MediatorContents.ReportDecidesViability | internal/server/mediator.go:279-295 | a parsed report competes if and only if it is good beyond the format's margin of 0 or 300 s and no live check found it expired or revoked; without a recorded expiry, if and only if the format is Codex |
| MediatorContents.CandidateAfter | internal/server/mediator.go:249-362 | a message changes its own node's candidate at most: a parsed report is stored as it came, an unparsable or absent file leaves no snapshot, an ack changes nothing but the applied fingerprint, a disconnect removes it |
| MediatorContents.SelectionCarries | internal/server/mediator.go:466-478 | over every run, a selected truth is, field by field, the report of a viable candidate with the latest times, dated by the clock, and differs from the truth before |
| MediatorContents.NoticesTell | internal/server/mediator.go:386-531 | over every run, a notice names the truth that was lost, restored or propagated in its step, the summary before it, the nodes that were reached and the account's nodes |
| MediatorContents.PropagationIsAnnounced | internal/server/mediator.go:515-531 | with a notifier, each pass that reached some node is announced with exactly the nodes reached |
| MediatorContents.NothingIsWithheld | internal/server/mediator.go:586-610 | each target of each pass was handed its push and each notice was given |
| SnapshotBytes.ParsedFile.constructor | pkg/formats/claudecreds/parse.go:101-123 | a parsed file owns a fresh copy of the bytes, and its fingerprint is theirs |
| SnapshotBytes.ParsedFile.Raw | pkg/formats/claudecreds/parse.go:59-65 | the bytes are handed out as a fresh copy |
| SnapshotBytes.Zeroize | internal/safeio/zeroize.go:8-12 | the buffer is overwritten in place with zeros |
| SnapshotBytes.ParseReport | internal/server/mediator.go:252-262 | although the decoded buffer is all zeros when the handler is done, the snapshot still holds the reported bytes and their fingerprint |
| SnapshotBytes.EncodeTruth | internal/server/mediator.go:474-474 | what is encoded for the wire is the snapshot's bytes, hashing to its fingerprint |
| SnapshotBytes.SnapshotStore.Handle | internal/server/mediator.go:249-307 | a message's buffer is allocated, parsed and zeroized, and every stored buffer still holds what its node reported, hashing to its fingerprint |
| SnapshotBytes.SnapshotStore.Run | internal/server/mediator.go:226-247 | over any sequence of messages the stored buffers hold the bytes last reported, however many buffers have been overwritten since |
| SnapshotBytes.StoreMatchesRun | internal/server/mediator.go:226-247 | in every state of every run of the actor those are the bytes of its candidates |
| ClusterSystem.ReachableTruthsAreSound | internal/server/mediator.go:466-478 | every truth the mediator can reach names its account and hashes to its fingerprint, as a start asks |
| ClusterSystem.StartInv | internal/client/agent.go:441-512 | a started system satisfies the convergence invariant |
| Convergence.StepKeeps | internal/server/mediator.go:441-612 | every step (report, apply, ack, mediated report) keeps the convergence invariant and makes a natural number smaller |
| Convergence.RunsAreFinite | internal/server/mediator.go:511-514 | from a started system all runs are no longer than one fixed bound |
| Convergence.PushesCarryTheFreshest | internal/server/mediator.go:542-552 | along every run each push in flight carries the bytes and fingerprint of a freshest candidate of its node's account |
| Convergence.ApplyCatchesUp | internal/client/apply.go:82-156 | an apply takes its node, and no other, out of the set of nodes that differ from the goal |
| Convergence.BehindShrinks | internal/client/agent.go:441-512 | no step puts a node back into that set |
| Convergence.NotStuck | internal/client/agent.go:542-570 | as long as a change, a report, a push or an ack is outstanding, some step is possible |
| Convergence.RunsConverge | internal/server/mediator.go:511-534 | every run that cannot be extended ends with all files of an account that no cooldown holds back byte-equal to the file of any of its freshest nodes |
| Convergence.ReachableRunsConverge | internal/server/mediator.go:226-247 | the same from any mediator state that some run reaches |
| Convergence.ConvergesExactly | internal/server/mediator.go:449-514 | all maximal runs make an account's files equal to that of a freshest node if and only if its truth is absent or not cooling down, or names these bytes already, or all the files have them already |
| Convergence.HeldFilesStay | internal/server/mediator.go:455-464 | along every run the files of an account that is held back stay as they are and nothing is pushed for it |
| Convergence.CoolingDiverges | internal/server/mediator.go:455-464 | a concrete start in which a cooling truth keeps two files different for good |
| Convergence.RunsComplete | internal/server/mediator.go:226-247 | every run from a started system can be carried on to one that cannot be extended |
| Convergence.ExampleConverges | internal/server/mediator.go:367-534 | a concrete started system with two differing files, and a complete run that makes them equal: the convergence theorems are not empty |
| ApplySpec.FailureKeepsFile | internal/client/apply.go:115-147 | without faults, a failed apply leaves the file as it was if and only if there was a file or the push did not decode |
| ApplySpec.ApplyIsIdempotent | internal/client/apply.go:83-90 | an ack is positive exactly when the file or the push already hashes to the fingerprint; then the file does, and the same push again writes nothing |
| ApplySpec.ApplyLowersExactly | internal/client/apply.go:82-156 | without faults, an apply makes a readable file older or unreadable if and only if the push decodes to what its fingerprint names, the file holds something else, and the push is older than the file or cannot be read |
| ApplySpec.StalePushExample | internal/client/apply.go:82-156 | such an input: a push of an older truth arrives after the node refreshed its file |
| ApplyPath.MakeTempPath | internal/safeio/atomic.go:76-82 | temporary names are siblings of the target with its temporary prefix |
| ApplyPath.Stage | internal/safeio/atomic.go:38-62 | creating, writing, syncing, closing and setting the mode touch only temporary files at every moment; the temporary holds all data on success |
| ApplyPath.AtomicWrite | internal/safeio/atomic.go:21-74 | at every moment the target shows its old contents or all of the new; success replaces it and leaves nothing behind, failure leaves it as it was |
| ApplyPath.ReadWithBackup | internal/safeio/backup.go:15-25 | at every moment the file is intact; success means a sibling holds the original contents |
| ApplyPath.RestoreBackup | internal/client/apply.go:158-168 | success puts the original back; failure changes neither the file nor the backup's contents; throughout one of the two holds the original |
| ApplyPath.LockFile | internal/client/apply.go:92-112 | attempts change no file, follow each other on timeouts alone, and end with the lock or with a broken one, a cancelled session or the third timeout |
| ApplyPath.Undisturbed | internal/client/apply.go:115-156 | without faults the outcome equals `ApplySpec.Apply` and neither backup nor temporary file remains |
| ApplyPath.Replace | internal/client/apply.go:115-156 | under the lock, for every fault pattern: every moment is safe, and the end is as `Ended` says |
| ApplyPath.WriteOne | internal/client/apply.go:82-156 | for every fault pattern and every moment: the file holds its original contents or the complete pushed bytes, nothing else changes, changes happen only under the lock, and once backed up the original is in the file or the backup unless the push verified; at the end the lock is free, success means the wanted hash, failure the original unless it wrote without a backup or could not restore |
| ApplyPath.ApplyTruth | internal/client/apply.go:35-78 | garbled pushes and empty paths touch nothing; otherwise as `WriteOne`; without faults the file and the ack are those of `ApplySpec.Apply`; the ack never names an account |
| Hub.ProfileHub.Register | internal/server/hub.go:120-174 | registering is one table step, and succeeds exactly for sessions with a JWT or a listed identity |
| Hub.OnlyListedGetIn | internal/server/hub.go:132-134 | for every interleaving, no mTLS session with an unlisted identity is ever in either index or holds a reference to the hub |
| Hub.RegisteringExactly | internal/server/hub.go:132-147 | a session with a JWT or a listed identity always becomes the entry of its node and identity; any other leaves the table as it was |
| Hub.ProfileHub.Unregister | internal/server/hub.go:178-208 | unregistering is one table step, also when late, repeated or without a registration |
| Hub.ProfileHub.SnapshotNodeIDs | internal/server/hub.go:284-294 | lists the connected nodes in order |
| Hub.CurrentAfter | internal/server/hub.go:136-147 | who is current after one more operation, in terms of who was |
| Hub.TableHoldsCurrent | internal/server/hub.go:183-192 | for every interleaving, a node's entry is its last admitted registration not unregistered since, nothing otherwise, and the two indexes are equal |
| Hub.SignalsMatchTable | internal/server/hub.go:193-196 | a disconnect is signalled exactly when the current session leaves, and exactly the session whose place is taken is displaced |
| Queue.BoundedQueue.Deliver | internal/transport/wsconn.go:226-241 | for every interleaving with the consumer it terminates, queues the new element last, drops at most one old element and none if there was room |
| Queue.BoundedQueue.Publish | internal/watcher/watcher.go:167-190 | the same for the watcher's variant of the loop |
| Queue.BoundedQueue.ReceivedInOrder | internal/transport/wsconn.go:226-241 | what was received, followed by what is queued, is an in-order subsequence of what was delivered, and the rest was dropped |
| Queue.PickedConserves | internal/watcher/watcher.go:176-189 | every delivered element is kept or dropped, none is lost or doubled |
| Watcher.StateExplained | internal/watcher/watcher.go:216-272 | the loop's state for a path comes from its last raw notification and from one sample since, equal to all samples since |
| Watcher.ReportsAreStable | internal/watcher/watcher.go:245-264 | debounce safety: a report comes the debounce time plus the stable window or more after the last raw notification, and every sample since the one it waited on equals it |
| Watcher.DefaultReportsAreStable | internal/common/consts.go:43-44 | with the default limits a report comes 250 ms or more after the last raw notification, with equal samples over its last 200 ms |
| Watcher.ReportedExactly | internal/watcher/watcher.go:255-264 | a path's reports are what its settled ticks found, and nothing else |
| Watcher.FsWatcher.PublishedExactly | internal/watcher/watcher.go:255-264 | after the initial events, exactly these reports of the configured paths are published |
| Watcher.StaysPending | internal/watcher/watcher.go:216-229 | after a raw notification the path stays pending until it is reported |
| Watcher.ChangeIsReported | internal/watcher/watcher.go:235-272 | no lost change: with equal samples and no other raw notification, any tick the stable window or more after the first eligible one has reported it |
| Watcher.FsWatcher.constructor | internal/watcher/watcher.go:109-133 | starting publishes the present state of every path; debounce time, stable window and queue size are what the caller asked for, or 50 ms, 200 ms and 64 |
| Watcher.FsWatcher.RawEvent | internal/watcher/watcher.go:216-229 | the maps keep every tracked path exactly as the one-path machine does |
| Watcher.FsWatcher.Poll | internal/watcher/watcher.go:245-271 | one sample moves its path by one step, publishes what the machine reports, and touches no other path |
| Watcher.FsWatcher.OnTick | internal/watcher/watcher.go:235-272 | in whatever order the map is iterated, a tick moves every path by one step of the one-path machine, and per path the published events are its reports |
| ShellWords.LexThen | internal/reversebridge/ssh.go:376-393 | lexing a concatenation is lexing its parts one after the other |
| ShellWords.NulStops | internal/reversebridge/ssh.go:406-408 | a NUL anywhere stops the lexer |
| RemoteCommandParses.QuotedLexes | internal/reversebridge/ssh.go:406-408 | a quoted string is read back unchanged as part of one word, unless it holds a NUL |
| RemoteCommandParses.PathExprLexes | internal/reversebridge/ssh.go:410-419 | a path expression is one word: the path, with a leading `~/` or `$HOME/` replaced by the home directory |
| RemoteCommandParses.GuardLexes | internal/reversebridge/ssh.go:378-380 | the tokens of the guard: the command is one quoted word, then redirections, an or-operator and the braced fallback |
| RemoteCommandParses.RestLexes | internal/reversebridge/ssh.go:381-391 | after any text that ends between words, the further writes read as the words of one command |
| RemoteCommandParses.ScriptLexes | internal/reversebridge/ssh.go:376-391 | the tokens of the whole script, for any listen address |
| RemoteCommandParses.HomePaths | internal/reversebridge/ssh.go:410-419 | a leading `~/` or `$HOME/` stands for the home directory, any other path for itself |
| RemoteCommandParses.ManagedCommandParses | internal/reversebridge/ssh.go:376-393 | for all strings: without a NUL the outer line is exactly `sh`, `-lc` and the script, and the script ends in a command whose arguments are the command, the expanded path and the profile as single unchanged words; with a NUL it does not lex |
| Handshake.BearerExactly | internal/server/auth.go:127-136 | a header yields a token exactly when it reads "Bearer" in any case, space, the token, perhaps with space around |
| Handshake.UpgradesExactly | internal/server/auth.go:57-94 | an upgrade goes through exactly over TLS and, in mTLS mode, as the certificate's name, in JWT mode as the subject of the verified header token or, with the fallback, without any header |
| Handshake.ServesExactly | internal/server/router.go:78-106 | a connection is accepted exactly when its frames authenticate an identity and greet under that very name; each refusal for a mismatch or a missing or invalid token is given exactly for that reason |
| Handshake.WhoGetsIn | internal/server/router.go:78-108 | whoever gets in has a certificate or a verified token for the identity it is known by and greets under, as the session table expects |
| Handshake.BearerRoundTrip | internal/server/auth.go:127-136 | the header that the client sends for a token is read back as that token |
| Handshake.CompleteJWT | internal/server/auth.go:96-114 | the first frame is consumed and yields the token's subject, or one of two reasons to close |
| Handshake.ServeConn | internal/server/router.go:78-106 | the ordered reads of the handshake amount to one function of the frames that arrive in time, and the connection is closed exactly on failure |
| Handshake.Agent.Connect | internal/client/agent.go:327-362 | one reconnect against that server, and exactly when it makes the client switch to the first frame |
| Handshake.AttemptEndsAnyhow | internal/client/agent.go:327-362 | how an attempt against a JWT server ends, for every client mode, network and token, and whether or not the server falls back |
| Handshake.OnlyAutoSwitches | internal/client/agent.go:351-362 | a client that is not in auto mode never changes how it presents its token |
| Handshake.AttemptEnds | internal/client/jwt.go:36-63 | how an attempt with a valid token ends, in all cases |
| Handshake.SwitchIsFinal | internal/client/agent.go:351-362 | once the client has seen the rejection it uses the first frame in every later attempt |
| Handshake.AutoModeSettles | internal/server/auth.go:71-80 | after a seen rejection, an attempt that gets through is accepted with the authenticated identity if and only if its two frames arrive in time, and rejected for want of a token if and only if none does |
| Handshake.RejectionsExactly | internal/client/agent.go:351-358 | over any run, whatever is stripped when, stated on what the network does alone: the client sees a rejection if and only if some reachable attempt is stripped of its header and the close is seen, and at most one if and only if no later reachable attempt arrives with no frame in time and its close seen |
| Handshake.AtMostOneRejection | internal/client/agent.go:351-358 | so at most one over any run in which some frame of each attempt arrives in time |
| Handshake.LateFramesRejectAgain | internal/server/router.go:151-166 | without that condition two are possible |

## Left out

- TLS, certificates, SSH and WebSocket libraries, JWT signatures: only their accept or reject outcome appears, as an input.
- JSON and YAML decoding, account metadata on disk, redaction: decoding is a function of the profile, the account and the summary are fields of a report; a decoder is taken to reject the empty file.
- Live checks: a report carries the result of one, if it was performed.
- Compare strategies: each format has one, and the fallback for unknown names selects it.
- Notifier rendering, sinks and usage probes: notices are recorded as events, without their push time, and no order is claimed between the notices of different accounts.
- Session routing and protocol errors (`internal/server/session.go`), snapshot requests and refresh nudges: easy members.
- Reconnect backoff, hub shutdown, profile creation and reload: the code promises no more than each call does.
- Order across message kinds: reports, absents, acks and disconnects come in any order.
- MediatorActor.Mediator.PushTruth: sessions are node names; the connection that a send uses is not modelled, only whether the send succeeded; a push that was tried without success may or may not have arrived.
- Hub.TableHoldsCurrent: sessions are values told apart by a serial number, which stands for pointer identity; identities equal node names, as the handshake enforces (`internal/server/router.go:103-106`).
- Convergence.RunsConverge: clock, sessions and the account a file yields are frozen, nodes have no faults and no other writer, equally fresh candidates agree in content, and some node is about to report.
- ApplyPath.WriteOne: no other process writes the file, reads are not torn, unlocking succeeds, and the empty lock file beside the target is not tracked.
- SnapshotBytes.EncodeTruth: the encoding is symbolic.
- Queue.BoundedQueue.Deliver: one producer, as in the code; closing the channel is not modelled.
- Watcher.FsWatcher.OnTick: paths are already absolute and distinct; the `lastQueued` map, which nothing reads, is left out.
- Handshake.BearerRoundTrip: header fields are split at ASCII white space.
- Handshake.Agent.Connect: ends with the welcome; what registration may refuse is part of `Hub`.
- RemoteCommandParses.ManagedCommandParses: says which words the shell sees, not what `command`, `exec` or the login profile do.
