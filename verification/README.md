# Verification of the bridge daemon and its clients

A Dafny model of the programs that let one command-line assistant drive others: `cb` runs a
CLI in a terminal and forwards it over a named pipe, the daemon `bridged` keeps the sessions,
and `bridge-mcp` sends the daemon requests. The project holds the protocol logic of these
programs and proofs of what they promise, over every run and every interleaving of events.

How it is laid out, one file per part:

- `Wrappers.dfy`: optional values, results, bytes, the constants, concatenation.
- `Framing.dfy`, `Base64.dfy`: the wire. `Parse` looks at all bytes at once; class `Decoder`
  is the chunk-list form and is proved to do the same. JSON is a pair of functions with
  `parse(serialise(m)) = m` on the messages sent.
- `RingBuffer.dfy`, `WaitFor.dfy`, `Inject.dfy`: the buffer, the idle detector and the
  race-protected inject, each against a short reference definition.
- `Session.dfy`, `Registry.dfy`, `Persistence.dfy`, `Notifications.dfy`, `Decimal.dfy`: the
  daemon's objects as classes, with the pure functions that specify their methods.
- `Daemon.dfy`: the whole daemon as one step machine. Node runs one event handler at a time,
  so one handler is one step; every session and connection ever created keeps its number.
- `DaemonInvariants.dfy`, `DaemonRuns.dfy`, `DaemonLabels.dfy`, `DaemonHistory.dfy`,
  `DaemonHeartbeat.dfy`: what every step and every run of that machine keeps.
- `DaemonLives.dfy`, `DaemonTimes.dfy`, `DaemonPeers.dfy`, `DaemonRecords.dfy`: exactly which
  event kills a session, moves its times, lists a client or ends a history entry, and what
  follows over whole runs.
- `DaemonConns.dfy`, `DaemonOutput.dfy`, `DaemonWire.dfy`: connections, and output over whole
  runs, from the bytes of a connection in any chunks to a session's buffer and its reads.
- `DaemonNotices.dfy`, `DaemonWatchers.dfy`: how the machine drives the notification center, and
  the daemon with its watchers' intervals in place of their verdicts.
- `PipeServer.dfy`: the daemon's objects wired together. Each handler's contract says that
  the state of all objects together becomes what the step machine says, so the theorems above
  are about these handlers.
- `PipeClient.dfy`, `DaemonClient.dfy`, `Auth.dfy`: the two clients as step machines with a
  class each, and the start-up race on the secret file.

In classes, ghost fields are histories (everything sent, written, enqueued, settled, created);
contracts relate the real fields to them. Times are integers given to each handler.

Where the code does less than its comments say, the code is modelled, a lemma names a failing
input or run, and the exact condition is proved:

- A first message between 4 KiB and 1 MiB can be encoded but not received (`RoundTrip`,
  `WireDelivers`).
- `readSince` never returns a byte twice (`ReadsNeverRepeat`) but skips bytes pushed in the
  millisecond of the previous read (`SameMillisecondIsLost`, `LostByte`); it is complete exactly
  when every batch fits and is late enough (`IncrementalReads`).
- `stableTicks` below 1 makes the idle detector time out always (`NeverIdleWithoutWindow`).
- An empty payload is written to the pipe and then reported as `session_dead`
  (`EmptyPayloadReportsDead`).
- Between the creation of the secret file and its writing a second daemon exits; a daemon
  that crashes there locks everybody out (`SecretObtainable`, `LoserMayFindNothing`).
- In cb, a close during the wait for the secret lets a later frame overtake the hello, in every
  such state (`StaleHandshakeOvertakes`) and in a concrete run (`FrameOvertakesHello`);
  `HandshakeSafeExactly` has the exact condition and `ShutdownHandshake` the case of a client
  that is shutting down.
- A hello that carries the id or resume id of a living session which it does not resume drops
  that session without killing it; the history then disagrees with the living sessions
  (`StepMirrorsExactly`, `DroppingShows`), and an entry of a living successor can be ended
  (`PurgeEndsLivingEntry`, `OverwriteEndsLivingEntry`, and the run of `PurgeIsReachable`).
- With 9999 living sessions under the candidates of one base label and the time-stamped label
  taken too, two living sessions share a label (`StepKeepsLabelsExactly`, `CollisionNeedsCrowd`,
  and the run of `CollisionIsReachable`).

## Model

First the main theorems, then the laws they rest on, last the handlers and other methods.

| member | source | states |
|---|---|---|
| DaemonLives.DeadExactlyIfKilled | packages/bridged/src/session.ts:169-192 | Over every run: a session is dead exactly if some event of the run killed it in that sense; it died at that event's time and the recorded death has its cause. |
| DaemonRuns.ExactlyOnceDeath | packages/bridged/src/registry.ts:69-87 | Over every run: the death listeners have run once for a session if it is dead and never if it lives; the death events ever enqueued are exactly one per death and connected client, session_exited with the integer of the bye frame, else session_dead. |
| DaemonRuns.ToldExactlyOnce | packages/bridged/src/notifications.ts:117-140 | With distinct client ids each client connected at a death hears of it exactly once, and nobody else does. |
| DaemonHistory.StepMirrorsExactly | packages/bridged/src/persistence.ts:104-142 | The mirror (open history entries are exactly the ids of living registered sessions, every living session is registered, ids are distinct) survives an event if and only if it is not a hello that creates a session while a living one carries its id or resume id. |
| DaemonHistory.HistoryMirrorsLiveness | packages/bridged/src/index.ts:102-113 | The mirror holds after every run from a file with distinct ids in which no such hello occurs. |
| DaemonHistory.DroppingShows | packages/bridged/src/pipe-server.ts:312-374 | Every such hello shows in the history itself: the open entries differ from the ids of the living registered sessions at once, or as soon as the dropped session's socket closes. |
| DaemonRecords.EveryEndingIsExplained | packages/bridged/src/persistence.ts:132-142 | Over every run, from any file: an open history entry has neither reason nor exit code; every ended one was loaded with the file, or carries the reason text of a death of its session, the exit code exactly for a bye, and the time at which the session died. |
| DaemonPeers.PeersAreTheClients | packages/bridged/src/pipe-server.ts:470-486 | Over every run: the clients connected are, in order, those whose mcp_hello carried the secret and whose connection has not closed, each under the id it asked for or one made from its connection. |
| DaemonHeartbeat.HeartbeatLossIsEarned | packages/bridged/src/pipe-server.ts:385-417 | heartbeat_lost happens only on the tick that completes exactly HEARTBEAT_MISS_LIMIT + 1 ticks of the current socket with no pong or resume since. |
| DaemonHeartbeat.PromptPeerSurvives | packages/bridged/src/pipe-server.ts:454-459 | Over every run in which a pong or resume is handled between any two counted ticks, the counter stays at most 1 and the session never dies of heartbeat loss. |
| DaemonRuns.SocketsAreExclusive | packages/bridged/src/pipe-server.ts:278-311 | In every reachable state a session lives exactly while it has a socket and no time of death; its socket is an open cb connection bound to it and no other session has it. |
| DaemonRuns.StaleForever | packages/bridged/src/pipe-server.ts:278-311 | Once replaced, a socket never becomes its session's socket again in any continuation. |
| DaemonRuns.StaleSocketIsHarmless | packages/bridged/src/pipe-server.ts:779-804 | The close or heartbeat of a socket that a resume replaced changes nothing about any session, the registry, the history or the queues. |
| DaemonRuns.OutsidersDoNotInterfere | packages/bridged/src/pipe-server.ts:255-262 | Non-interference, over every run of everybody's events: leaving out all events of a connection whose hellos never carry the secret changes nothing but that connection's own record. |
| DaemonLabels.StepKeepsLabelsExactly | packages/bridged/src/pipe-server.ts:265-341 | Every event keeps the labels of registered sessions unique if and only if it is not a creating hello that finds all 9999 candidates of its base label held by living rivals and the time-stamped fallback held by a living one it does not replace. |
| DaemonLabels.LabelsStayUnique | packages/bridged/src/registry.ts:161-205 | In every state reached while at most 9998 sessions live at each creation, registered sessions with tilde-free labels have distinct labels and living ones have tilde-free labels. |
| DaemonLabels.CollisionIsReachable | packages/bridged/src/registry.ts:161-179 | For every valid base label and every clock reading whose fallback is a valid label: a run from the empty daemon, followed by one hello, in which two living registered sessions end up with the same label. |
| DaemonInvariants.RunKeepsInv | packages/bridged/src/pipe-server.ts:178-816 | The invariant holds in every reachable state. |
| DaemonOutput.BufferHoldsOutput | packages/bridged/src/pipe-server.ts:430-440 | In every reachable state, whatever the run: a session's buffer is what a ring buffer retains of all output delivered to it on any connection, in order: the longest suffix of chunks that fits, and nothing else. A session that does not exist yet has been delivered nothing. |
| DaemonOutput.ReadsReturnOwnOutput | packages/bridged/src/ring-buffer.ts:44-65 | For every run of the daemon cut into parts in any way: the read of a session at the end of a part returns output that this part delivered and no other; the reads together return all of its output, once and in order, if and only if each part's output fits and is later than the timestamp fed back. |
| DaemonWire.OutputSurvivesTheWire | packages/bridged/src/pipe-server.ts:178-440 | From the terminal to the buffer, in every run from any state of the invariant: if a fresh connection's bytes are the encodings of an accepted hello and of any further frames, cut into chunks in any way, then whatever else the daemon handles in between, the session it is bound to gets over it exactly the output these frames carry, in order; and unless some hello resumes that session, its buffer ends up with the longest fitting suffix of this output. |
| DaemonWire.WireDelivers | packages/bridged/src/pipe-server.ts:178-202 | For every cut of the encodings of some messages into chunks the daemon handles exactly these messages, in order, if and only if the first fits the first-frame cap; otherwise it handles one decode error and nothing else. |
| Framing.RoundTrip | packages/shared/src/framing.ts:4-115 | For every list of encodable messages and every cut of their encodings into chunks (empty and one-byte chunks included) the receiver gets exactly those messages with nothing left over, if and only if the first message also fits the 4 KiB first-frame cap; otherwise it fails with the first-frame error. |
| Framing.ChunkingIrrelevant | packages/shared/src/framing.ts:80-110 | What successive pushes deliver depends only on the concatenated bytes: same frames, same rest, or the same error, under any chunking. |
| Framing.Decoder.Push | packages/shared/src/framing.ts:80-110 | One push of the chunk-list decoder does what parsing the concatenated bytes does; after a push that does not throw fewer than 4 + cap bytes remain, and at most twice the bytes pushed have been copied so far. |
| RingBuffer.ReadsNeverRepeat | packages/bridged/src/ring-buffer.ts:44-65 | For every sequence of batches with times in order, of any size and under any cap: read k returns bytes pushed between read k-1 and read k only, namely the capped end of what that batch's later pushes alone leave in the buffer. So no byte is returned twice. |
| RingBuffer.IncrementalReads | packages/bridged/src/ring-buffer.ts:44-65 | The reads together return every byte once and in order if and only if each batch fits the buffer and the cap and each non-empty push after a read is strictly later than the timestamp that read returned. |
| RingBuffer.SameMillisecondIsLost | packages/bridged/src/ring-buffer.ts:55 | Pushes no later than the timestamp fed back are in no read of the whole sequence: their own read returns nothing, every other read returns bytes of its own batch. |
| RingBuffer.EvictKeepsLongestSuffix | packages/bridged/src/ring-buffer.ts:36-42 | Oldest-first eviction keeps the longest suffix of the chunks whose total fits the cap. |
| PipeClient.SendConservation | packages/cb/src/pipe-client.ts:84-311 | Over every undisturbed run: each frame given to send is in exactly one of written, evicted or queued; what is written over all connections is an in-order duplicate-free subsequence of what was sent; each connection carries the hello first and once, with the resume request on every reconnect; the queue is within its cap or holds one frame. |
| PipeClient.HandshakeSafeExactly | packages/cb/src/pipe-client.ts:258-311 | When a handshake ends on a current socket (or while connected) everything promised above is kept. Every connection carries its hello first in every continuation if and only if the socket was still current or the client is shutting down. |
| PipeClient.StaleHandshakeOvertakes | packages/cb/src/pipe-client.ts:258-311 | For every state of the protocol outside that condition: sending one frame, after the scheduled reconnect if there is no socket, puts data in front of a hello. |
| PipeClient.ShutdownHandshake | packages/cb/src/pipe-client.ts:258-311 | A handshake that ends during shutdown keeps hellos first; it keeps conservation and order across connections if and only if nothing was queued or no later connection had carried frames. |
| Notifications.RunKeepsInv | packages/bridged/src/notifications.ts:45-162 | In every reachable state each queue is the last 100 events since the client's last drain, each running watcher is the one its key leads to, event numbers increase, and each completion comes from a stopped watcher of that client and session, once. |
| Notifications.DrainReturnsTheTail | packages/bridged/src/notifications.ts:45-75 | Whatever happens between two drains of a client, the second returns the last 100 (or all) of the events enqueued for it in between, in order. |
| Notifications.StoppedWatcherStaysSilent | packages/bridged/src/notifications.ts:100-113 | A superseded, cancelled or expired watcher never enqueues anything in any continuation. |
| DaemonNotices.ClientDrainsTheTail | packages/bridged/src/notifications.ts:45-75 | Between two drains by a client of the running daemon, whatever it handles in between: the second returns the last 100 (or all) of the events enqueued for the client since the first, in order. |
| DaemonNotices.RunDrives | packages/bridged/src/index.ts:102-113 | Every run of the daemon drives the notification center by exactly the listed deaths, additions, drains, disconnects, follow-ups and watcher verdicts, so what holds of every run of the center holds in the daemon. |
| DaemonWatchers.CompletionsAreEarned | packages/bridged/src/pipe-server.ts:650-659 | Over every run of the daemon and its watchers' intervals: each task_complete comes from a watcher of that client and session whose last tick, and no earlier one, completed in time a run of 8 equal samples taken in silence; each watcher completes at most once; a watcher still running has seen no such tick and no late one. |
| DaemonWatchers.FiresExactly | packages/bridged/src/wait-for.ts:176-197 | A firing of a running interval enqueues task_complete, once and for the inject's own client and session, if and only if its tick completes such a run; it goes on if and only if the tick neither does so nor is late. |
| DaemonWatchers.CompletionMeansQuiet | packages/bridged/src/wait-for.ts:186 | Whenever a tick completes, the latest output handled for the session on any connection is at least 1500 ms old. |
| DaemonWatchers.FollowCompletesExactly | packages/bridged/src/pipe-server.ts:650-659 | From the inject to its completion, over every continuation in which nothing else stops the watcher: the client gets task_complete for the session from this watcher, at most once, if and only if some tick of its interval, before any late one, completed a run of 8 equal samples taken in silence; with that tick's time. |
| DaemonClient.ExactlyOnce | packages/bridge-mcp/src/daemon-client.ts:325-396 | In every interleaving with distinct request ids each request is settled at most once, is pending exactly until it is settled, and has an armed timer exactly while pending. |
| DaemonClient.FirstEventSettles | packages/bridge-mcp/src/daemon-client.ts:325-396 | The first of the five ways to reach a request is the one that settles it, in every run; with none it is still pending. |
| Auth.SecretAgreement | packages/shared/src/auth.ts:43-111 | In every interleaving of starting daemons and retrying clients, crashes included, all processes that obtain a secret hold the same one, and at most one daemon owns the pipe. |
| Auth.SecretObtainable | packages/shared/src/auth.ts:103-111 | A starting daemon can obtain a secret if and only if the file is not left blank with nobody writing it. |
| Auth.ClientObtainsExactly | packages/shared/src/auth.ts:79-92 | A waiting client can obtain the secret if and only if it has an attempt left and the file is usable or somebody is left who can make it so. |
| Inject.TryInject | packages/bridged/src/inject.ts:32-92 | For every timeline: a frame goes out if and only if the deciding poll finds the session alive, its pipe open, its process seen and a write that does not throw, and, unforced, at least `need` ms of silence before the deadline; user_active means every poll in the window was below `need`; session_dead, user_active and success are characterised exactly; success for n > 0 bytes if and only if exactly one frame and one audit record; with exact sleeps the loop ends within 10 s + 200 ms. |
| DaemonTimes.UnforcedFrameWaitsForSilence | packages/bridged/src/inject.ts:32-92 | Race protection from keyboard to pipe: in every run in which cb's throttled notifications of some keystrokes have been handled, an unforced inject that polls the session then and writes a frame does so more than need - 200 ms after each of them. |
| DaemonTimes.InputTimeIs | packages/bridged/src/pipe-server.ts:441-443 | Over every run: lastUserInputAt is the time of the latest user_input frame delivered to the session on any connection, or 1501 ms before the session's start if there was none. |
| Inject.UnforcedFrameMeansOldKeystrokes | packages/bridged/src/inject.ts:32-92 | Inject and throttle together: if an unforced call writes a frame, every keystroke typed until then is more than need - 200 ms old. |
| WaitFor.IdleExactly | packages/bridged/src/wait-for.ts:120-154 | For stableTicks of at least 1 the FIFO of hashes reports idle at exactly the first in-time, sampled tick at which a plain count of equal consecutive samples reaches stableTicks, and times out at exactly the first late tick before that. |
| Base64.StrictAcceptsExactlyCanonical | packages/shared/src/framing.ts:121-133 | The strict decoder accepts a string exactly when it is canonical in the sense of sections 3.5 and 4 of RFC 4648, equivalently when it is the encoding of some bytes; and then it is the encoding of the result. |
| Framing.ParseExtends | packages/shared/src/framing.ts:86-108 | Parsing a longer stream is parsing its prefix and then the unconsumed rest followed by the new bytes. |
| Framing.ParseRestBounded | packages/shared/src/framing.ts:87-98 | What a parse leaves unconsumed is shorter than a header plus the cap in force, and contains no complete frame. |
| Framing.HeaderRoundTrip | packages/shared/src/framing.ts:9-11 | The four little-endian bytes written for a length are read back as that length. |
| Framing.FrameLayout | packages/shared/src/framing.ts:4-12 | A frame is the payload's length in four bytes, least significant first, and then the payload. |
| Framing.EncodeFrame | packages/shared/src/framing.ts:4-12 | Encoding fails exactly above 1 MiB of payload; otherwise it adds four bytes. |
| Framing.Decoder.CopyBound | packages/shared/src/framing.ts:29-76 | Header folds included, the bytes copied over a run are at most twice the bytes pushed less those still pending. |
| Base64.StrictRoundTrip | packages/shared/src/framing.ts:121-133 | Decoding the encoding of any byte string gives that byte string. |
| Base64.LenientInvertsEncode | packages/shared/src/framing.ts:129 | The lenient decoder that the strict one and cb rely on inverts the encoder. |
| Base64.EncodeIsCanonical | packages/shared/src/framing.ts:129-131 | Encodings are canonical: whole groups, padding only at the end, unused bits zero. |
| Base64.AlphabetIsStandard | packages/shared/src/framing.ts:129 | The alphabet is that of Table 1 of RFC 4648. |
| Base64.GroupsAreBigEndian | packages/shared/src/framing.ts:129 | Three bytes and four characters are the same 24 bits, most significant first. |
| RingBuffer.EvictThenPush | packages/bridged/src/ring-buffer.ts:30-42 | Evicting after every push keeps the same chunks as evicting once at the end. |
| RingBuffer.RetainedBytesAreSuffix | packages/bridged/src/ring-buffer.ts:21-42 | After any pushes the retained bytes are a suffix of all bytes ever pushed. |
| RingBuffer.ReadSeesOnlyNew | packages/bridged/src/ring-buffer.ts:54-59 | Chunks not later than the given time never influence a read, whether or not they are still retained. |
| RingBuffer.LatestCoversAll | packages/bridged/src/ring-buffer.ts:53-64 | With times in order, the returned timestamp is not earlier than any push so far, evicted or not. |
| RingBuffer.ReadExactlyNew | packages/bridged/src/ring-buffer.ts:50-65 | One read after any batch of pushes returns, up to the cap, what a buffer would hold that had seen only the pushes of this batch later than the timestamp fed back: a contiguous end of the batch's bytes, all of those pushes if they fit, and nothing of earlier batches. |
| RingBuffer.WholeExactly | packages/bridged/src/ring-buffer.ts:50-65 | The same for one read: it is its whole batch if and only if the batch fits and is late enough; otherwise it is shorter. |
| RingBuffer.LostByte | packages/bridged/src/ring-buffer.ts:55 | For every clock reading and whatever follows: a byte pushed in the millisecond of the read before it is never returned. |
| WaitFor.MachineInvariant | packages/bridged/src/wait-for.ts:126-151 | After any ticks the FIFO holds the last samples taken while output was silent, and the verdict is the reference one. |
| WaitFor.NeverIdleWithoutWindow | packages/bridged/src/wait-for.ts:143-144 | With stableTicks below 1 idle is never reported. |
| WaitFor.WaiterTerminates | packages/bridged/src/wait-for.ts:131-136 | The waiter ends by its first late tick and never reports idle past the timeout. |
| Inject.EmptyPayloadReportsDead | packages/bridged/src/inject.ts:81-84 | However a call ends: it reports session_dead without an audit record although a frame went out, if and only if a frame went out and the payload was empty. |
| Inject.ThrottleLag | packages/cb/src/pipe-client.ts:103-108 | With at most one notification per 200 ms, delivered at once, the daemon's last-input time is never 200 ms or more behind a real keystroke. |
| Inject.SilenceMeansOldKeystrokes | packages/bridged/src/inject.ts:49-52 | If the daemon finds `need` ms of silence, every real keystroke is more than need - 200 ms old. |
| Inject.SilenceBoundIsTight | packages/cb/src/pipe-client.ts:103-108 | That bound cannot be improved. |
| Session.InjectDecides | packages/bridged/src/session.ts:126-167 | A frame is written if and only if the session is alive, its pipe open, its process seen by the probe and the write does not throw; the session dies if and only if it is alive with an open pipe and its process is gone; the count is the payload's or 0. |
| Session.InjectArrives | packages/bridged/src/session.ts:150 | What cb decodes from an inject frame is the payload given to inject. |
| Registry.LowestFree | packages/bridged/src/registry.ts:165-171 | The suffix search returns the lowest free suffix, or none only if 2 to 9999 are all taken. |
| Registry.SomeCandidateFree | packages/bridged/src/registry.ts:161-171 | Pigeonhole: while at most 9998 sessions live, one of the 9999 distinct candidates is free. |
| Registry.ResolvedIsFree | packages/bridged/src/registry.ts:161-179 | While at most 9998 sessions live, the resolved label is free and is the base or its lowest free suffix. |
| Registry.ResolvedCollidesExactly | packages/bridged/src/registry.ts:161-179 | Without that bound: the resolved label is taken if and only if all 9999 candidates and the time-stamped fallback are taken. |
| Registry.ResolvedIsPlain | packages/bridged/src/registry.ts:161-179 | Resolving never introduces a tilde, so a new label is never a post-mortem one. |
| Registry.LabelValidIs | packages/bridged/src/pipe-server.ts:265-271 | A valid label is 1 to 64 characters out of ASCII letters, digits, dot, underscore and hyphen. |
| Registry.RenamedIs | packages/bridged/src/registry.ts:186-198 | A rename touches only a dead wearer of the label and of it only the name, which becomes the label with ~dead- and the time of death. |
| Registry.LookupByLabelUnique | packages/bridged/src/registry.ts:119-135 | With unique labels a key that is no id names at most one session, and the lookup answers it. |
| Persistence.EvictionFacts | packages/bridged/src/persistence.ts:77-86 | Capped eviction keeps every open entry in order, adds nothing, brings an overflowing history to 100 entries (or to its open ones), and among ended entries keeps the latest ended. |
| Persistence.EvictionKeepsOpenIds | packages/bridged/src/persistence.ts:77-86 | Eviction changes neither which ids are open nor the distinctness of ids. |
| Persistence.AddOpens | packages/bridged/src/persistence.ts:115-130 | Adding or updating an entry makes exactly one more id open. |
| Persistence.EndCloses | packages/bridged/src/persistence.ts:133-142 | Marking an id ended closes exactly that id. |
| Persistence.EndRecords | packages/bridged/src/persistence.ts:132-142 | Ending an id: its open entry gets the time, the reason and the exit code if one is given, and keeps all else; every other entry is unchanged, and without overflow none moves. |
| Persistence.AddRecords | packages/bridged/src/persistence.ts:115-130 | Adding a session: the entry under its id is open, with its label and activity time, the first start it ever had, and no end data; every other entry is unchanged. |
| Persistence.LoadedRecords | packages/bridged/src/persistence.ts:91-112 | Loading: each open entry has ended now with reason daemon_shutdown, its exit code kept; each ended one is unchanged. |
| Persistence.LoadedNoneOpen | packages/bridged/src/persistence.ts:91-112 | After a restart nothing is open and no entry is lost. |
| Persistence.SortFacts | packages/bridged/src/persistence.ts:83 | The sort yields a descending permutation. |
| Persistence.LookupFacts | packages/bridged/src/persistence.ts:168-180 | Each asked label is answered by its most recently active entry, or listed as missing exactly if there is none; found and missing together are as many as the labels asked, repetitions included. |
| Persistence.TopByLabel | packages/bridged/src/persistence.ts:172-177 | The entry chosen for a label is in the history and none with that label is more recently active. |
| Notifications.OneWatcherPerSession | packages/bridged/src/notifications.ts:94-114 | At most one watcher runs per client and session. |
| Notifications.ReinjectSupersedes | packages/bridged/src/notifications.ts:100-113 | A second inject stops the first watcher and starts another. |
| Notifications.FollowupStarts | packages/bridged/src/notifications.ts:94-114 | The first or any later inject starts a running watcher, stored under its key; exactly the one that was under that key stops; queues and log stay. |
| Notifications.StepStopsExactly | packages/bridged/src/notifications.ts:78-140 | A running watcher stops exactly at its own verdict, a new inject under its key, a disconnect whose prefix its key has, or the death of its session announced to its client. |
| Notifications.RunsUntilStopped | packages/bridged/src/notifications.ts:94-140 | It runs as long as none of these happens. |
| Notifications.DisconnectForgets | packages/bridged/src/notifications.ts:78-79 | A disconnect drops the client's queue and touches nobody else's, nor the log. |
| Notifications.VerdictForgets | packages/bridged/src/notifications.ts:104-112 | A task_complete takes exactly its own watcher off the map; a watcher that times out leaves its entry behind. |
| Notifications.DisconnectStopsExactly | packages/bridged/src/notifications.ts:78-87 | For ids without NUL, a disconnect stops all watchers of that client and nobody else's. |
| Notifications.KeysSeparateClients | packages/bridged/src/notifications.ts:82 | For ids without NUL, keys determine client and session, and the prefix test finds exactly the client's keys. |
| Notifications.FanoutLog | packages/bridged/src/notifications.ts:117-140 | One death fan-out logs exactly one event for each listed client, in order, and nothing else. |
| Decimal.ExitCodeSurvivesText | packages/bridged/src/index.ts:103-104 | An exit code written into the reason text is read back with its value; no other reason yields one. |
| Decimal.ReasonsTellCauses | packages/bridged/src/session.ts:169-192 | Different causes have different reason texts. |
| DaemonInvariants.StepKeepsInv | packages/bridged/src/pipe-server.ts:178-816 | Every event of the daemon keeps the whole invariant: sockets and sessions, registry, deaths, clients, queues and announcements agree. |
| DaemonInvariants.RetainedFacts | packages/bridged/src/registry.ts:219-228 | A sweep drops exactly the registered sessions that died more than 300 s ago. |
| DaemonLives.SweepDropsExactly | packages/bridged/src/registry.ts:219-228 | The sweep takes out of the registry exactly the sessions dead for more than five minutes and changes nothing else. |
| DaemonInvariants.ShutCommutes | packages/bridged/src/pipe-server.ts:779-804 | Closing a connection and then killing its session is the same as killing it and then closing. |
| DaemonRuns.StepDeaths | packages/bridged/src/session.ts:169-192 | Only a bye, a tick, a close, the pid poll or a failed probe kills, each for its own cause, and the clients told are those connected at that moment. |
| DaemonRuns.PidPollExactly | packages/bridged/src/registry.ts:209-217 | The pid poll kills exactly the registered living sessions whose process is gone, and changes no other. |
| DaemonLives.StepKillsExactly | packages/bridged/src/pipe-server.ts:178-816 | An event kills a session exactly if it is the bye of a connection attached to it, a heartbeat that finds more than three misses, the close of its own socket, or a poll or inject that finds its process gone; the death is recorded at the event's time with that cause and the clients connected then. No other event touches life, time of death, id, pid or start. |
| DaemonLives.BornByHello | packages/bridged/src/pipe-server.ts:327-374 | Sessions are made by accepted hellos that resume nobody and by nothing else, one each, with the hello's data, alive on its connection, with the times of the event and the input time 1501 ms before the start. |
| DaemonLives.ResumesExactly | packages/bridged/src/pipe-server.ts:278-281 | A hello resumes exactly a living registered session whose id it names, whose pid is positive and whose process is seen. |
| DaemonTimes.StepTimes | packages/bridged/src/session.ts:87-104 | Every event moves the activity and the input time of a session exactly as output, typing, pongs, resumes and written injections call for; a reported time counts if it is positive and at most a second ahead of the daemon's clock, else the daemon's own. |
| DaemonTimes.InjectOutcome | packages/bridged/src/session.ts:126-167 | An inject into an open pipe kills the session of pid_gone_inject if its process is gone (one death, socket destroyed, nobody else touched); else it moves the activity time if the write does not throw; otherwise nothing changes at all. |
| DaemonPeers.McpHelloJoins | packages/bridged/src/pipe-server.ts:475-486 | An mcp_hello with the secret gives its connection the role, the client id and an entry at the end of the client map, and changes nothing else. |
| DaemonPeers.DroppingDestroys | packages/bridged/src/pipe-server.ts:168-271 | A rejected first frame, a decode error, or a handshake timer that finds no role destroys the socket, gives no role and changes nothing else; a handshake timer that finds a role changes nothing. |
| DaemonNotices.InjectStartsWatcher | packages/bridged/src/pipe-server.ts:650-659 | After a successful inject by an mcp client a new watcher runs for that client and session, stored under their key; every other watcher is as before except the one under that key; nothing else changes. |
| DaemonWatchers.EightQuietTicksComplete | packages/bridged/src/wait-for.ts:176-197 | So eight ticks in time, in silence and on one screen complete it. |
| DaemonRuns.ResumeRebinds | packages/bridged/src/pipe-server.ts:278-311 | A resume moves the session to the new connection and changes only socket, miss counter and activity time; the old socket is destroyed and stale. |
| DaemonRuns.OutsidersChangeNothing | packages/bridged/src/pipe-server.ts:255-262 | A run of events of a connection whose hellos never carry the secret changes nothing but that connection's own record. |
| DaemonConns.StepKeepsConn | packages/bridged/src/pipe-server.ts:151-246 | A connection keeps its role, session and client id through every event except its own first frame, and is closed by its own close alone. |
| DaemonConns.HelloBinds | packages/bridged/src/pipe-server.ts:278-374 | An accepted hello binds its connection to the session it resumes, or else to a new one. |
| DaemonConns.SoleBinding | packages/bridged/src/pipe-server.ts:278-374 | In every run, a session created in it and never resumed is bound to a single connection. |
| DaemonNotices.StoppedForever | packages/bridged/src/notifications.ts:100-113 | In the running daemon a watcher that was superseded, cancelled or has expired never enqueues anything again. |
| DaemonWatchers.ActsAreRuns | packages/bridged/src/pipe-server.ts:650-659 | The daemon with its intervals makes runs of the step machine. |
| DaemonRuns.StdoutArrives | packages/bridged/src/pipe-server.ts:430-440 | A stdout frame built by cb is never dropped on an attached connection: exactly its bytes reach the session's buffer and nothing else changes. |
| DaemonOutput.StepStores | packages/bridged/src/pipe-server.ts:430-440 | Every event pushes exactly what it delivers to a session into that session's buffer and output time; no other event touches them. |
| DaemonOutput.LastOutputIs | packages/bridged/src/session.ts:87-94 | lastOutputAt is the time at which the latest output delivered to the session was handled. |
| DaemonLabels.CreationEffects | packages/bridged/src/pipe-server.ts:327-374 | A hello that does not resume makes exactly one living session under the resolved label, registers it in place of the entry with its id and of the purged prior if any and of nobody else, binds the connection, opens its history entry with its data and touches no other, and announces it once to each connected client; earlier sessions are unchanged, except that a dead one may lose the label. |
| DaemonLabels.ResolvedCollides | packages/bridged/src/registry.ts:161-179 | The label that resolving yields is one a rival holds exactly under that guard. |
| DaemonLabels.CollisionNeedsCrowd | packages/bridged/src/registry.ts:161-179 | Such an event needs at least 9999 living rivals. |
| DaemonLabels.LookupFindsTheOne | packages/bridged/src/registry.ts:119-135 | In every such state a lookup by a living session's label finds that session, unless the text is also an id. |
| DaemonHistory.OverwriteEndsLivingEntry | packages/bridged/src/pipe-server.ts:327-374 | A plain hello with the id of a living session: the later close of the overwritten session's socket ends the history entry of its living successor. |
| DaemonHistory.PurgeEndsLivingEntry | packages/bridged/src/pipe-server.ts:312-324 | For every state: if a hello purges a living session because its pid probe fails, the later close of the old socket ends the history entry of the new, living session. |
| DaemonHistory.PurgeIsReachable | packages/bridged/src/pipe-server.ts:312-324 | A concrete run from an empty daemon reaches such a state. |
| DaemonHeartbeat.CounterIsTicks | packages/bridged/src/pipe-server.ts:385-417 | A session's miss counter is the number of ticks of its current socket since some event after which no pong and no resume was handled. |
| DaemonHeartbeat.LivingWithinLimit | packages/bridged/src/pipe-server.ts:394-406 | A living session has never missed more than the limit. |
| DaemonWire.StdoutPayload | packages/bridged/src/pipe-server.ts:430-440 | The frame that cb builds for some output carries exactly that output. |
| DaemonWire.EventsDeliver | packages/bridged/src/pipe-server.ts:178-202 | On any connection the frames handled are those that its bytes mean, whatever the chunks. |
| Auth.StepKeepsInv | packages/shared/src/auth.ts:43-111 | Every step keeps: held secrets are the file's, at most one process is writing, a usable file is never changed. |
| Auth.WrittenThenRead | packages/shared/src/auth.ts:48-75 | A secret written with its newline is read back; a blank file gives none. |
| Auth.ReadTrims | packages/shared/src/auth.ts:71-76 | Reading gives what remains of the file without the blanks, tabs and line ends around it, and nothing if nothing remains. |
| Auth.RetryConnectsExactly | packages/shared/src/auth.ts:79-92 | At an attempt a client connects exactly if the file is usable then; else it has one attempt fewer, and with none left it gives up. |
| Auth.ReadyListensExactly | packages/bridged/src/index.ts:153-166 | A daemon with the secret takes the pipe if nobody owns it and gives up otherwise. |
| Auth.StuckForever | packages/shared/src/auth.ts:71-76 | Once it is, no process ever obtains a secret. |
| Auth.LoserExactly | packages/shared/src/auth.ts:99-111 | The loser of the race, in every state: at its read it obtains the secret of the file if and only if nobody is between creating and writing the file and the file is not stuck; otherwise it exits. |
| Auth.LoserMayFindNothing | packages/shared/src/auth.ts:99-111 | A concrete race in which the loser finds a blank file and exits. |
| PipeClient.StepKeepsInv | packages/cb/src/pipe-client.ts:84-311 | Each event keeps that. |
| PipeClient.EndedForGood | packages/cb/src/pipe-client.ts:125-144 | After a shutdown, in every continuation: no connection is ever opened again, and none that has carried anything gets anything more. |
| PipeClient.ShutdownEnds | packages/cb/src/pipe-client.ts:125-144 | Shutting down, or a secret that cannot be read, leaves no timer, no socket and no connection, and keeps what was sent, queued and written. |
| PipeClient.ByeCarriesCode | packages/cb/src/pipe-client.ts:115-123 | A bye goes last on the current socket with its exit code exactly while connected, and changes nothing otherwise. |
| PipeClient.FrameOvertakesHello | packages/cb/src/pipe-client.ts:262-306 | A concrete run in which the socket closes during the await and a later frame precedes the hello on the next connection. |
| PipeClient.EvictIsMinimal | packages/cb/src/pipe-client.ts:157-162 | Nothing is evicted that would have fitted. |
| PipeClient.Evict | packages/cb/src/pipe-client.ts:157-162 | The kept frames are a non-empty suffix within the cap, or the last frame alone. |
| PipeClient.ReconnectDelayGrows | packages/cb/src/pipe-client.ts:318-320 | Delays start at 300 ms, double up to the fifth attempt, and are 5 s from the sixth on. |
| DaemonClient.SocketIsUsable | packages/bridge-mcp/src/daemon-client.ts:215-226 | Over every run: a request can be sent exactly while the last connection opened has closed neither itself nor with the client. |
| DaemonClient.RequestIsPending | packages/bridge-mcp/src/daemon-client.ts:361-375 | A request made then, whose write succeeds, is pending and unsettled; any other is rejected at once. |
| DaemonClient.StepKeepsInv | packages/bridge-mcp/src/daemon-client.ts:325-396 | Each event keeps the correspondence of pending, timers, issued and settled. |
| Framing.Decoder.Consume | packages/shared/src/framing.ts:44-64 | The copying loop over the chunk list returns the first n buffered bytes, keeps the rest, counts the n bytes copied, and never finds the list empty. |
| Framing.Decoder.PeekLen | packages/shared/src/framing.ts:67-77 | Reads the length of the next frame without changing the buffered bytes; -1 exactly while fewer than four bytes are pending. |
| Framing.ReceiveAll | packages/bridged/src/pipe-server.ts:178-202 | The data handler's pushes run over a whole stream of chunks deliver what parsing the whole stream delivers; on an error, the frames already delivered are exactly those of the chunks before the failing one. |
| RingBuffer.RingBuffer.PushChunk | packages/bridged/src/ring-buffer.ts:21-42 | One push is the pure push that the sessions' specification uses; after any pushes the chunks are the longest fitting suffix of the tail-truncated non-empty pushes, their bytes are a suffix of everything pushed, and size is their number. |
| RingBuffer.RingBuffer.EvictOldest | packages/bridged/src/ring-buffer.ts:36-42 | The eviction loop computes that suffix and keeps the byte counter exact. |
| RingBuffer.RingBuffer.ReadSince | packages/bridged/src/ring-buffer.ts:50-65 | Returns the last bytes, up to the cap, of the chunks later than the given time, and the latest time seen. |
| WaitFor.IdleWaiter.OnTick | packages/bridged/src/wait-for.ts:130-151 | The interval callback is one step of that machine; a skipped tick leaves the window as it was. |
| WaitFor.IdleWatcher.OnTick | packages/bridged/src/wait-for.ts:176-197 | The background watcher calls onIdle at most once, decided by the ticks before the first cancel alone. |
| WaitFor.IdleWatcher.Cancel | packages/bridged/src/wait-for.ts:200-205 | After cancel nothing is ever reported. |
| Inject.DoInject | packages/bridged/src/inject.ts:72-92 | Success exactly when the frame was written and the payload is not empty; one audit record exactly on success. |
| Inject.DoInjectInto | packages/bridged/src/inject.ts:72-92 | The same on the session object: the frame counted is the one its socket gets, with the base64 of the payload, and no frame is written otherwise. |
| Session.Session.MarkDead | packages/bridged/src/session.ts:169-192 | One-way transition: a living session gets a time of death, loses and destroys its socket; a dead one stays as it is; the callback runs exactly in the first case. |
| Session.Session.Inject | packages/bridged/src/session.ts:126-167 | The same, stated on the object: exactly then a frame is written, 0 returned, or the session killed; a written frame is the last on that socket and carries the base64 of the payload. |
| Session.Session.OnStdout | packages/bridged/src/session.ts:87-94 | Bytes enter the ring buffer and both activity times move to now. |
| Session.Session.OnUserInput | packages/bridged/src/session.ts:97-103 | The reported time is used if positive and at most a second ahead, else the daemon's clock. |
| Registry.Registry.ByIdOrLabel | packages/bridged/src/registry.ts:119-135 | Ids win over labels, living sessions over dead ones, earlier entries over later ones; no answer exactly if nothing matches. |
| Registry.Registry.ChooseLabel | packages/bridged/src/registry.ts:161-176 | The suffix loop computes the resolved label. |
| Registry.Registry.RenameDeadCollisions | packages/bridged/src/registry.ts:186-198 | Exactly the dead registered sessions wearing the new label are renamed to it with ~dead- and the time of death. |
| Registry.Registry.Add | packages/bridged/src/registry.ts:79-90 | Map.set under the own id: in place if the id is present, else at the end; ids stay distinct. |
| Registry.Registry.RemoveAt | packages/bridged/src/registry.ts:92-99 | Removing an entry leaves the others in order, with distinct ids. |
| Registry.Registry.SweepDead | packages/bridged/src/registry.ts:219-228 | The in-place sweep keeps, in order, exactly the sessions not dead for more than the retain time. |
| Persistence.SessionPersistence.constructor | packages/bridged/src/persistence.ts:91-112 | The loop ends every entry that was open, and writes the file exactly if there was one. |
| Persistence.SessionPersistence.Add | packages/bridged/src/persistence.ts:115-130 | New state and what is written to the file. |
| Persistence.SessionPersistence.End | packages/bridged/src/persistence.ts:133-142 | New state, and the file is written whenever it changes. |
| Persistence.SessionPersistence.TouchActivity | packages/bridged/src/persistence.ts:145-151 | Only the activity time of an open entry changes (nothing calls it so far). |
| Persistence.SessionPersistence.Recent | packages/bridged/src/persistence.ts:154-165 | A descending list of the latest entries of the pool: nothing left out is more recent than anything returned. |
| Persistence.SessionPersistence.LookupByLabels | packages/bridged/src/persistence.ts:168-180 | Found entries and missing labels, each in the order asked, a label asked twice answered twice. |
| Notifications.NotificationCenter.Enqueue | packages/bridged/src/notifications.ts:45-66 | Push, then cut to the last 100. |
| Notifications.NotificationCenter.Drain | packages/bridged/src/notifications.ts:69-75 | Returns the queue and empties it. |
| Notifications.NotificationCenter.ClientDisconnected | packages/bridged/src/notifications.ts:78-87 | The loop over the watcher map cancels and removes exactly the keys with the client's prefix. |
| Notifications.NotificationCenter.RegisterInjectFollowup | packages/bridged/src/notifications.ts:94-114 | Cancels the watcher under the key and stores the new one. |
| Notifications.NotificationCenter.OnIdle | packages/bridged/src/notifications.ts:104-112 | A running watcher removes its key and enqueues one completion. |
| Notifications.NotificationCenter.FanoutSessionDead | packages/bridged/src/notifications.ts:117-140 | The loop enqueues and cancels client by client. |
| Notifications.NotificationCenter.FanoutSessionAdded | packages/bridged/src/notifications.ts:147-162 | The loop enqueues client by client. |
| PipeServer.PipeServer.constructor | packages/bridged/src/index.ts:71-96 | The wired objects start as the machine does. |
| PipeServer.PipeServer.HandleConnection | packages/bridged/src/pipe-server.ts:151-212 | A new connection without a role; nothing else changes. |
| PipeServer.PipeServer.OnDecodeError | packages/bridged/src/pipe-server.ts:182-190 | The socket is destroyed; nothing else changes. |
| PipeServer.PipeServer.OnHandshakeTimeout | packages/bridged/src/pipe-server.ts:168-174 | Destroys the socket exactly if no role was established. |
| PipeServer.PipeServer.Dispatch | packages/bridged/src/pipe-server.ts:215-246 | One frame does to all objects together what the step machine says, whatever the role. |
| PipeServer.PipeServer.OnData | packages/bridged/src/pipe-server.ts:178-202 | One chunk: the objects together make the run of the events that the chunk decodes to, a decode error included. |
| PipeServer.PipeServer.AcceptCb | packages/bridged/src/pipe-server.ts:250-383 | Secret, label, resume, purge and attach: the new state of sessions, registry, connections, queues and history. |
| PipeServer.PipeServer.ResumeOrPurge | packages/bridged/src/pipe-server.ts:278-325 | Resumes exactly if the named session is registered, alive and its process seen; otherwise the registry is left without it. |
| PipeServer.PipeServer.AttachSession | packages/bridged/src/pipe-server.ts:327-374 | Label, session, registry, binding, announcement and history entry. |
| PipeServer.PipeServer.AcceptMcp | packages/bridged/src/pipe-server.ts:470-503 | Role, client id and entry in the client map. |
| PipeServer.PipeServer.HandleCbFrame | packages/bridged/src/pipe-server.ts:419-466 | stdout, user_input, bye and pong act on the bound session; resize changes nothing of what is modelled; everything else is ignored. |
| PipeServer.PipeServer.HeartbeatTick | packages/bridged/src/pipe-server.ts:391-415 | The interval counts a miss, and past the limit kills the session and destroys the socket. |
| PipeServer.PipeServer.HandleClose | packages/bridged/src/pipe-server.ts:779-815 | A cb close kills the session only if this is still its socket; an mcp close removes the client with its queue and watchers. |
| PipeServer.PipeServer.MarkDead | packages/bridged/src/registry.ts:79-87 | Session transition, fan-out to the connected clients and history entry, together. |
| PipeServer.PipeServer.OnSessionDeath | packages/bridged/src/index.ts:102-113 | The listener: exit code read from the reason, fan-out, history. |
| PipeServer.PipeServer.PidPoll | packages/bridged/src/registry.ts:209-217 | The poll loop over the registry. |
| PipeServer.PipeServer.Sweep | packages/bridged/src/registry.ts:219-228 | The sweep, seen in the whole daemon. |
| PipeServer.PipeServer.InjectInto | packages/bridged/src/session.ts:126-167 | Injection with the listeners of the death it may cause; a frame goes to the session's socket exactly if the session is alive, the pipe open, the process seen and the write does not throw. |
| PipeServer.PipeServer.RegisterFollowup | packages/bridged/src/pipe-server.ts:650-659 | A watcher for the originating client and the session. |
| PipeServer.PipeServer.DrainFor | packages/bridged/src/pipe-server.ts:703-706 | The events returned are the client's queue. |
| PipeServer.PipeServer.ConnectedMcpClientIds | packages/bridged/src/pipe-server.ts:115-117 | The client ids of the map, in order. |
| Auth.ReadWithRetry | packages/shared/src/auth.ts:79-92 | Returns the secret of the first attempt that finds one; null exactly after all attempts failed. |
| PipeClient.PipeClient.Send | packages/cb/src/pipe-client.ts:84-95 | Queued exactly while not connected, else written to the current socket. |
| PipeClient.PipeClient.EnqueuePreConnect | packages/cb/src/pipe-client.ts:152-170 | Queue, byte counter and evicted frames. |
| PipeClient.PipeClient.OnSecret | packages/cb/src/pipe-client.ts:273-310 | Hello, then the queue in order, then live. |
| PipeClient.PipeClient.OnSecretMissing | packages/cb/src/pipe-client.ts:263-272 | Without a secret the client shuts down. |
| PipeClient.PipeClient.Drain | packages/cb/src/pipe-client.ts:295-301 | The drain loop writes the queued frames in order behind what the socket already carries. |
| PipeClient.PipeClient.OnClose | packages/cb/src/pipe-client.ts:220-241 | Not connected, no socket, and unless shutting down a reconnect is scheduled with the resume flag. |
| PipeClient.PipeClient.ScheduleReconnect | packages/cb/src/pipe-client.ts:315-325 | Nothing while shutting down or with a timer armed; otherwise one timer with the delay of the attempt. |
| PipeClient.PipeClient.NotifyUserInput | packages/cb/src/pipe-client.ts:103-108 | Sends at most once per 200 ms. |
| PipeClient.PipeClient.SendByeBestEffort | packages/cb/src/pipe-client.ts:115-123 | A bye is written to the current socket exactly while connected. |
| PipeClient.PipeClient.ShutDown | packages/cb/src/pipe-client.ts:125-144 | No timer, no socket, not connected. |
| DaemonClient.DaemonClient.OnConnected | packages/bridge-mcp/src/daemon-client.ts:192-194 | A connected socket is the one requests are written to. |
| DaemonClient.DaemonClient.SendRequest | packages/bridge-mcp/src/daemon-client.ts:361-375 | Registered with a timer, or rejected at once if the write fails. |
| DaemonClient.DaemonClient.OnTimeout | packages/bridge-mcp/src/daemon-client.ts:362-365 | The timer rejects its request and forgets it. |
| DaemonClient.DaemonClient.Dispatch | packages/bridge-mcp/src/daemon-client.ts:325-334 | A response to a pending request resolves it; any other settles nothing. |
| DaemonClient.DaemonClient.FailAllPending | packages/bridge-mcp/src/daemon-client.ts:336-342 | The loop rejects every pending request once, in order, and clears map and timers. |
| DaemonClient.DaemonClient.OnSocketClose | packages/bridge-mcp/src/daemon-client.ts:215-226 | The close handler fails all pending requests. |
| DaemonClient.DaemonClient.Close | packages/bridge-mcp/src/daemon-client.ts:386-395 | Closing the client fails all pending requests. |

## Left out

- Framing.RoundTrip: says nothing about frames already decoded in the push that throws on a malformed stream; the code discards them.
- Framing.Decoder.Push: chunks are byte sequences, so the sharing of memory between a chunk and its `subarray` is not modelled.
- Inject.SilenceMeansOldKeystrokes: notifications are taken to arrive at the moment they are sent, and the clock to be past 200 ms at the first keystroke.
- DaemonTimes.UnforcedFrameWaitsForSilence: speaks of the keystrokes whose notifications have been handled by the deciding poll; one still on its way is not among them.
- Inject.TryInject: one poll, from the clock reading to the write, is one instant; the session may change arbitrarily between polls.
- PipeClient.SendConservation: writes to a socket are taken not to throw, and the runs are those in which no close falls between a connection and the end of its handshake; HandshakeSafeExactly and ShutdownHandshake say what happens otherwise.
- DaemonClient.ExactlyOnce: assumes that request ids are never reused, as random UUIDs are taken not to be.
- DaemonLabels.LabelsStayUnique: assumes at most 9998 living competitors at each creation; StepKeepsLabelsExactly has no such bound.
- DaemonLabels.CollisionIsReachable: only for base labels whose time-stamped form is itself a valid label, since the hello that takes it asks for it by name.
- DaemonHistory.HistoryMirrorsLiveness: assumes distinct ids in the loaded file and no hello that drops a living session; StepMirrorsExactly and DroppingShows show that the latter is needed.
- Notifications.DisconnectStopsExactly: for client ids without NUL only; the keys are ambiguous otherwise.
- PipeServer.PipeServer.HandleCbFrame: resize frames only act on the terminal, which is not modelled, so they change nothing here.
- PipeServer.PipeServer.OnData: the error frame sent before the socket is destroyed is not modelled, and chunks are taken not to arrive on a destroyed socket.
- Persistence.SessionPersistence.TouchActivity: nothing in the repository calls it, so no run contains it.
- PipeServer.PipeServer.Dispatch: the random connection id is the connection's number in decimal, used only to name a client that gives no id.
- PipeServer.PipeServer.PidPoll: the outcome of each liveness probe is a parameter, and one poll happens at one instant.
- Auth.SecretAgreement: the content of the secret file is written in one step once the file exists, and the file is never deleted.
- DaemonWire.OutputSurvivesTheWire: a socket's close event is taken to come after all of its data, as Node emits it.
- DaemonRuns.OutsidersDoNotInterfere: the connection is already accepted when the run starts.
- DaemonWatchers.CompletionsAreEarned: ticks come at arbitrary times with arbitrary screen hashes; that a tick happens at all is not modelled.
- Session.Session.OnStdout: the buffer's chunk list is a field of the session and updated by the pure push, to which RingBuffer.RingBuffer.PushChunk proves the loop equal; the ring buffer object is not a part of the session's footprint.
- Fields of sessions and history entries that are only copied (cwd, cmdline, terminal size).
- The comparison of secrets itself (`verifyDaemonSecret`): whether a hello carries the right secret is a parameter of that event; Auth.SecretAgreement says which secret a peer can hold.
- The cbConns set, `stop()`, and the idle-shutdown timer of the daemon; log output.
- Frames that only read (list, read_screen, read_tail, history, wait_for_pattern): argument checks and formatting around the functions modelled here.
- The force gate of an inject request and bracketed-paste wrapping: two lines without state.
- Terminal rendering: the screen hash is an arbitrary input of each tick.
- Redaction of output by regular expressions, and the pattern matching of waitForPattern.
- JSON text, UTF-8, socket back-pressure, real timer durations, file system errors.
- Which entries of a damaged history file are kept on loading; the file's content is a parameter.
- The daemon client's handshake with its acknowledgement waiter, reconnection and daemon spawning; the ping watchdog of cb.
- The spawn lock, the launcher, installer, dashboard, key table and audit-file rotation.
