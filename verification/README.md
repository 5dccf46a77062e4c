# AIVPN session and packet protocol: a verified model

This project models the parts of AIVPN that decide whether a packet is accepted, under which keys, and what both
endpoints and the server's tables look like afterwards. Every step is stated as a function on values; the code that
updates fields, maps and buffers in place is a class whose methods are proved to do exactly that step; and the laws are
lemmas over every state or every run.

| Part | Modules |
|---|---|
| Client receive window and its two-word bitmap | `Bitset256`, `RecvWindow` |
| Server session: tag window, bitmap, key epochs | `Session`, `SessionRun`, `SessionObject` |
| Session table: `sessions`, `tag_map`, `vpn_ip_map` | `SessionTable`, `TableInvariants`, `AddressMap`, `SessionManager` |
| One whole `handle_packet` call and runs of calls | `Gateway`, `GatewayInvariants`, `Handshakes`, `PacketRuns`, `GatewayObject` |
| The server as one sender and receiver over all its sessions | `ServerRuns`, `KeyReuse` |
| Which datagrams it takes, opens and answers, where its replies go | `Acceptance`, `ClientAddresses` |
| Whom it admits, recovers and refuses | `Admission`, `Cooldowns` |
| Command-line client, mobile ServerHello handling | `Client`, `ClientRuns`, `ClientObject` |
| Key ratchet over a lossy, duplicating, reordering network; counters of both senders | `Ratchet`, `SharedCounters` |
| Stream framing, control codec, packets as bytes | `Framing`, `Codec`, `Wire`, `Bytes`, `Abstraction`, `PlainSuite` |
| ICMP checksum, mask catalog, client database | `Checksum`, `MaskCatalog`, `ClientDb` |
| Shared vocabulary | `Crypto`, `Datagram`, `Logs`, `Wrappers` |

## How the surroundings enter

* **Cryptography.** In the protocol modules keys and tags are terms (`Crypto`): a tag names its secret, counter and
  time window, a derived key names what it was derived from. Tags therefore do not collide, derivation is one-to-one,
  and Diffie-Hellman commutes. In `Wire` the cipher and the tag function are arguments and only `Sound` is used of them:
  8-byte tags, 16 more bytes when sealing, opening undoes sealing. Where a byte-level search needs it, `Unambiguous` says
  that no other counter in range has the same tag. `DataOpensAtServer` also needs `TruncationFails`: a ciphertext without
  its first 32 bytes does not open. `Abstraction` joins the two: what the senders build stands for the datagrams of the
  protocol modules, and both are decoded alike; there `TagTells` and `NonceBinds` say that no other tag searched for is
  this one and that no other counter's nonce opens the ciphertext. `AssumptionsHold` gives a suite that meets all of
  this together.
* **Time, randomness, map order.** Clock readings, padding, random ids and ephemeral keys, and the iteration order of the
  concurrent maps are arguments, so every law holds for each of them; an iteration covers all sessions. One call reads the
  clock once.
* **Registered clients.** The list of clients is read anew for each packet and is part of the event, so the runs include
  clients being added, removed, disabled, or moved to another address at any time.
* **Freshness.** A handshake draws a session id; the lemmas ask only that it is not in use, and only when the handshake is
  reached (`FreshDraw`). Nothing is asked of the keys. First keys are not drawn at all: they follow from the server's
  key, the pre-shared key and the ephemeral key in the packet, so they do come again, and what that costs is stated in
  the conclusions (`Clashes`, `Doubles`, `OpenedOnce`). Where it matters which client matched, registered pre-shared keys
  are raw bytes (`RawKeys`), and distinct (`DistinctKeys`).
* **Atomicity.** One `SessionManager` operation, and for runs one whole `handle_packet` call, is one step.
* **Start of the ratchet.** `Ratchet` begins with a client on its first keys and the session its handshake built;
  `StartExists` shows that every pair of parties can begin so.
* **Integers.** Counters are unbounded: the source casts them to `i64`, so they are taken to be below 2^63. Time windows
  wrap at 64 bits, `next_octet` and the variant counter at 32, sequence numbers and lengths at 16.

## What the code does not do, exactly

These laws fail for some inputs. The code is modelled as it is, and each lemma says for all inputs when the law holds.

* **Replay far behind.** A tag of a counter accepted before validates again exactly when the counter is 256 or more behind
  the highest and the tag is still in the precomputed table, which is only moved every 64 counters
  (`ReplayTakenExactly`; `FarReplayHappens` is a run of four packets).
* **The highest counter again.** Recovery does not look at the bitmap. It is reached exactly for counters 256 to 65535 above
  the highest, and for the highest itself if its bit is set (`RecoverableExactly`); so of the counters accepted before it
  takes exactly the highest, in a near time window (`RecoveryTakesExactly`). That happens when the tag has left the index
  because the time window moved on: `HighestTakenAgain` is the packet, `HighestRecoveredAgain` a run. Validation and
  recovery together: within one life of a session a counter is accepted again only 256 or more behind the highest, or as
  the highest itself through recovery (`AcceptedAgainInLife`, `ServerAcceptsTwice`).
* **A first packet that comes again too late.** While a session has not ratcheted, a copy of its first packet in a far time
  window reaches the handshake, and the attempt that is rolled back there has the live session's own tags: rolling back
  takes them out of the index. A rejected packet leaves such a gap exactly when a tag of a failed attempt was in the index
  (`AttemptIsUndone`, `HandshakeOutcome`, `PacketKeeps`); `LateFirstPacketLeavesGap` is the packet. Sessions and
  addresses are untouched, nothing becomes stale, and genuine packets of that session are still found, by the refresh
  (`LookupFindsGenuine` does not need the index to be complete).
* **A first packet that comes again in time.** Once its session has ratcheted, a copy of the first packet opens a second
  session with the same first key, whose send counter starts at 0 again. The server seals one (session key, counter) pair
  twice exactly when two sessions were opened with one first key, that is with the same ephemeral key and the same
  pre-shared key (`ServerNoncesExactly`, `FirstKeyOfStep`, `SameFirstKey`), and otherwise it accepts a pair twice only
  within one life of one session (`ServerAcceptsTwice`). `DuplicatedFirstPacket` is the run of three packets.
* **One key for both directions.** Client and server seal with the same session key and both count from 0, so they share a
  (key, counter) pair exactly when both have sealed under one key at all (`SharedExactly`).
* **Counter recovery and the bitmap.** Recovery moves the counter without shifting the bitmap; the bitmap stays right
  exactly when the counter does not move or no bit is set (`RecoveryKeepsBitmapExactly`). In `RecoveryRejectsGenuine` a
  counter that was never accepted is refused after it.
* **Counter recovery and the index.** Recovery puts back only the initial tags; the index stays complete exactly when the
  session has ratcheted (`RecoveryKeepsNoStale`, `RecoveryGapHappens`).
* **Data before the ratchet.** Before the ratchet the server skips 32 bytes in every packet that has room for an ephemeral
  key, so a client data packet is opened exactly when the session has ratcheted, or its tag is a ratcheted one, or it is
  shorter than 60 bytes (`DataOpensAtServer`; a packet of 70 bytes in `EarlyDataFails`).
* **Two ServerHellos.** A second copy of the ServerHello received under the transition keys makes the client derive once
  more; from then on it shares no key with its session (`RatchetAgreement` says exactly when they agree,
  `TwoHellosDisagree` is a run). Agreement is between a client and the session its handshake opened.
* **Oversized input.** A frame round-trips exactly at 1 to 1500 bytes, a mask update exactly up to 65535 bytes of mask data,
  an acknowledgement exactly up to 255 bytes of bitmap; lengths are truncated beyond that.
* **Fallback masks.** The code makes a new variant when the pool runs low, so no fallback is found exactly if the pool is
  empty, nothing has cooled down and the current mask has the id of the next variant (`FallbackExactly`). The test
  `test_mask_catalog_no_fallback_when_all_compromised` expects none; the code is followed.
* **Handshake cooldown.** The comment at aivpn-server/src/gateway.rs:1007 speaks of one to five seconds; the code waits half
  a second after the first failure and at most four (`RefusedExactly`).
* **Tunnel packet size.** The comment at aivpn-client/src/tunnel.rs:12-16 counts a 16-byte tag; the code's tag has 8 bytes,
  and 1346 bytes is exactly what fits into 1380 (`TunnelPacketFits`).

## Model

| member | source | states |
|---|---|---|
| Bitset256.ShiftMovesOnes | aivpn-common/src/client_wire.rs:38-56 | the two-word left shift moves each set position up by the shift and drops those past 255, in every range of the shift: zero, below 128, 128 to 255, 256 and more |
| Bitset256.SetBitAddsOne | aivpn-common/src/client_wire.rs:58-64 | exactly the one position is added, whichever word it is in |
| Bitset256.TestBitIsGetBit | aivpn-common/src/client_wire.rs:66-74 | masking a word and comparing with zero reads exactly the bit at that position |
| Bitset256.EmptyHasNoOnes | aivpn-common/src/client_wire.rs:28-36 | a new or cleared bitmap has no position set |
| RecvWindow.BitsNameMarkedCounters | aivpn-common/src/client_wire.rs:133-156 | after any sequence of marks, bit d is set exactly when highest - d was marked, and highest is the greatest mark |
| RecvWindow.RefinesSet | aivpn-common/src/client_wire.rs:133-174 | after any sequence of marks a counter is new exactly when it is above the highest, or within 255 of it and never marked |
| RecvWindow.MarkRetires | aivpn-common/src/client_wire.rs:133-174 | on any window, a marked counter is no longer new and no other counter becomes new |
| RecvWindow.FindIsExact | aivpn-common/src/client_wire.rs:101-131 | a found counter is unmarked, in range, and its tag in one of three time windows is the tag; nothing is found only if there is no such counter |
| RecvWindow.FindsGenuine | aivpn-common/src/client_wire.rs:101-131 | every genuine unmarked counter up to 4096 above the highest (0 to 4095 when empty) is found, given an unambiguous tag |
| RecvWindow.RecvWindow.constructor | aivpn-common/src/client_wire.rs:89-94 | a new window has no counter marked |
| RecvWindow.RecvWindow.Reset | aivpn-common/src/client_wire.rs:96-99 | the window is as new |
| RecvWindow.RecvWindow.Mark | aivpn-common/src/client_wire.rs:133-156 | the bitmap update in place is the marking that RefinesSet and MarkRetires speak of |
| RecvWindow.RecvWindow.FindCounter | aivpn-common/src/client_wire.rs:101-131 | the nested search loops find what FindIsExact and FindsGenuine describe |
| Session.PrecomputedRange | aivpn-server/src/session.rs:205-228 | in every state with an exact window, each counter from 255 below to 192 above the highest has its tag precomputed under the current key |
| Session.AcceptKeepsWindow | aivpn-server/src/gateway.rs:1165-1244 | opening, ratchet, marking and window move keep: precomputed tags exactly those of the current key for 255 either side of a base, base at most 63 behind the highest; ratcheted tags exactly the first 256 of the next key |
| Session.RatchetKeepsWindow | aivpn-server/src/session.rs:373-387 | the swap of keys, counters and tables keeps the window exact |
| Session.AcceptAndKeys | aivpn-server/src/gateway.rs:1185-1192 | an accepted ratcheted tag switches to exactly the ratcheted keys, consumes them and restarts the send counter; nothing else changes keys or send counter |
| Session.RefreshedValidates | aivpn-server/src/session.rs:234-301 | a refreshed session takes exactly the tags of near time windows under its current key for unreceived counters within 255 of the highest, and under the next key those of the first 256 counters, each with its own counter and epoch |
| Session.FormerKeysAreDead | aivpn-server/src/session.rs:373-387 | a session that has ratcheted takes no tag of its former keys and holds neither server ephemeral key nor signature |
| SessionRun.WindowExactOverRuns | aivpn-server/src/session.rs:205-301 | over every run of sends, receipts, refreshes and recoveries the precomputed tags stay exact |
| SessionRun.NoncesNeverRepeat | aivpn-server/src/session.rs:196-202 | over every run of one session it never seals two packets with one session key and one counter, with the ratchet between any two of them; KeyReuse.ServerNoncesExactly says when the server does over all its sessions |
| SessionRun.BitmapOverRuns | aivpn-server/src/session.rs:304-317 | over every run without recovery bit d means that highest - d was accepted under the current key, and nothing was accepted under the next key |
| SessionRun.HighestOverRuns | aivpn-server/src/session.rs:304-317 | over every run without recovery the counter of a session is the highest it accepted under its current key, 0 before any |
| SessionRun.ReplayTakenExactly | aivpn-server/src/session.rs:234-256 | over every run, recoveries included, a tag of a counter already accepted under the current key validates again exactly when the counter is 256 or more behind the highest and the tag is still precomputed |
| SessionRun.NoReplayNearHighest | aivpn-server/src/session.rs:234-301 | over every run, recoveries included, no counter within 255 of the highest that was accepted in the key epoch is validated again, and no counter of the next epoch was accepted before |
| SessionRun.CoverOverRuns | aivpn-server/src/session.rs:304-317 | over every run, recoveries included, each counter accepted under the current key and within 255 of the highest has its bit set |
| SessionRun.RecoverableExactly | aivpn-server/src/session.rs:688-741 | a session that did not take a tag is recovered by it exactly for a tag of its key in a near time window whose counter is the highest with its bit set, or 256 to 65535 above it |
| SessionRun.RecoveryTakesExactly | aivpn-server/src/session.rs:707-734 | over every run, recovery is reached by a tag of a counter accepted before exactly when that counter is the highest and the time window is near |
| SessionRun.HighestRecoveredAgain | aivpn-server/src/session.rs:707-734 | a fresh session accepts counter 0, is refreshed in the next time window, and accepts the same datagram again by recovery |
| SessionRun.FarReplayHappens | aivpn-server/src/session.rs:234-301 | a fresh session accepts counters 0, 255, 300 and then 0 again |
| SessionRun.RecoveryKeepsBitmapExactly | aivpn-server/src/session.rs:722-735 | after a recovery the bitmap still means received counters exactly when the counter did not move or no bit was set |
| SessionRun.RecoveryRejectsGenuine | aivpn-server/src/session.rs:722-735 | a fresh session that received 0 and 5 and was recovered at 300 rejects counter 295, which it never accepted |
| SessionObject.ServerSession.NextSendNonce | aivpn-server/src/session.rs:196-202 | hands out the old send counter and advances it, changing nothing else |
| SessionObject.ServerSession.UpdateTagWindow | aivpn-server/src/session.rs:205-228 | the loop fills the table with exactly the tags of the current key around the counter |
| SessionObject.ServerSession.UpdateRatchetedTagWindow | aivpn-server/src/session.rs:353-370 | the loop fills the ratcheted table with exactly the first 256 tags of the next key, if there is one |
| SessionObject.ServerSession.SearchAdjacent | aivpn-server/src/session.rs:258-298 | the two loops over the previous and the next time window find a tag exactly when it is of that secret, range and window |
| SessionObject.ServerSession.ValidateTag | aivpn-server/src/session.rs:234-301 | table, adjacent windows, replay check and ratcheted epoch, in the source's order, give the answer the run lemmas reason about |
| SessionObject.ServerSession.MarkTagReceived | aivpn-server/src/session.rs:304-317 | shifts the bitmap and moves the counter, or sets one bit; BitmapOverRuns says what the bits then mean |
| SessionObject.ServerSession.CompleteRatchet | aivpn-server/src/session.rs:373-387 | the ratcheted keys and tags become current, counters and bitmap restart, and a second call changes nothing |
| SessionObject.ServerSession.Receive | aivpn-server/src/gateway.rs:1204-1244 | marks, learns the address of a known session, and moves the tag window once 64 counters are passed: the step StepAddress and BitmapOverRuns speak of |
| SessionTable.LookupIsScan | aivpn-server/src/session.rs:637-645 | when the index agrees, looking a tag up is scanning the initial and ratcheted tags of all live sessions, in both outcomes |
| TableInvariants.RefreshOneKeeps | aivpn-server/src/session.rs:649-682 | recomputing one session's windows never leaves a stale entry, and between sessions that share no secret it leaves no gap either |
| TableInvariants.RefreshAndFindKeeps | aivpn-server/src/session.rs:649-682 | so does the refresh of any prefix of the sessions, in any order |
| TableInvariants.SetAndRefreshKeeps | aivpn-server/src/session.rs:779-792 | any change of a session that keeps its secrets, followed by refreshing its tags, leaves nothing stale, and no gap between sessions that share no secret |
| TableInvariants.RatchetKeeps | aivpn-server/src/session.rs:795-809 | completing a ratchet drops exactly the initial tags, leaves nothing stale, and no gap between sessions that share no secret |
| TableInvariants.RecoveryKeepsNoStale | aivpn-server/src/session.rs:688-741 | recovery never leaves a stale entry, and leaves no gap exactly when the session had ratcheted |
| TableInvariants.RemoveKeeps | aivpn-server/src/session.rs:760-776 | removal leaves nothing stale, and no gap between sessions that share no secret |
| TableInvariants.InsertKeeps | aivpn-server/src/session.rs:512-522 | a new session, whatever its keys, makes nothing stale; with secrets no live session has it leaves no gap |
| TableInvariants.InsertKeepsAgreement | aivpn-server/src/session.rs:512-522 | inserting a session's tags leaves no gap for anyone exactly when none of them was indexed before |
| AddressMap.InsertThenRollback | aivpn-server/src/session.rs:512-617 | inserting and rolling back restores sessions and address map always and takes exactly the attempt's tags out of the index, which is restored exactly when none of them was there; an address taken from a live session goes back to it |
| AddressMap.TakeOverKeepsInverse | aivpn-server/src/session.rs:528-595 | a new session that takes an address over replaces exactly its former holders, and the address map is again the inverse of the sessions' addresses |
| AddressMap.RemoveKeepsInverse | aivpn-server/src/session.rs:760-776 | removal keeps the address map the inverse of the sessions' addresses |
| AddressMap.OneHolderPerAddress | aivpn-server/src/session.rs:749-757 | looking an address up gives exactly its live holder, and no two live sessions hold one address |
| AddressMap.FindSpec | aivpn-server/src/session.rs:599-617 | a scan in any order returns a matching live session, and none only if there is none in that order |
| SessionManager.SessionManager.CreateSession | aivpn-server/src/session.rs:428-546 | builds, addresses and indexes a session, or refuses at the limits or on a bad key and changes nothing |
| SessionManager.SessionManager.CheckLimits | aivpn-server/src/session.rs:449-460 | a session is admitted exactly below 500 sessions in all and below 5 from its source address |
| SessionManager.SessionManager.AssignIp | aivpn-server/src/session.rs:527-543 | the fixed address, else the reused one, else the next octet up to 254; only the last advances the octet |
| SessionManager.SessionManager.InsertTags | aivpn-server/src/session.rs:512-522 | the loop adds exactly one entry per tag, pointing at the session |
| SessionManager.SessionManager.RemoveTags | aivpn-server/src/session.rs:760-776 | the loop removes exactly the given tags from the index |
| SessionManager.SessionManager.RemoveSession | aivpn-server/src/session.rs:760-776 | the session, its tags and its address entry go, and nothing else |
| SessionManager.SessionManager.RollbackFailedSession | aivpn-server/src/session.rs:599-617 | removal, then the address goes back to a live session that still holds it; InsertThenRollback says what that undoes |
| SessionManager.SessionManager.CleanupOldSessionsForVpnIp | aivpn-server/src/session.rs:575-595 | every other holder of the address is removed; TakeOverKeepsInverse says what is left |
| SessionManager.SessionManager.GetSessionByTag | aivpn-server/src/session.rs:637-645 | the indexed live session |
| SessionManager.SessionManager.RefreshAndFindByTag | aivpn-server/src/session.rs:649-682 | the loop refreshes sessions until one validates the tag, leaving the later ones as they were |
| SessionManager.SessionManager.RecoverSessionByTag | aivpn-server/src/session.rs:688-741 | the first session from that address whose key gives the tag within 65536 counters ahead jumps there; the index loses its old entries |
| SessionManager.SessionManager.RefreshTagsOf | aivpn-server/src/session.rs:779-792 | all of the session's entries are replaced by its present tags |
| SessionManager.SessionManager.CompleteRatchetOf | aivpn-server/src/session.rs:795-809 | the session ratchets and its initial tags leave the index |
| GatewayInvariants.BuiltIsExact | aivpn-server/src/session.rs:462-525 | a new session starts with an exact window, no counter received, no nonce used and no address |
| GatewayInvariants.AttemptIsUndone | aivpn-server/src/gateway.rs:1035-1070 | one failed attempt, whatever keys it derives, leaves sessions and addresses as they were and takes exactly its tags out of the index: a gap exactly when one of them was there; with a fixed address not even the next octet moves |
| GatewayInvariants.TryClientsOutcome | aivpn-server/src/gateway.rs:1035-1092 | trying every registered key: the loop ends at the first enabled client whose session validates the tag, and that session is the one added, or at the end and none is; besides, exactly the tags of the attempts before are out of the index |
| GatewayInvariants.AttemptOutcome | aivpn-server/src/gateway.rs:1035-1106 | the same with or without a client database, up to the next octet |
| GatewayInvariants.EstablishKeeps | aivpn-server/src/gateway.rs:1108-1142 | a validated handshake, whatever keys it derives, removes exactly the former holder of its address and keeps windows exact, addresses inverse and nothing stale; with secrets no live session has it leaves no gap |
| GatewayInvariants.FinishKeeps | aivpn-server/src/gateway.rs:1165-1279 | decrypting, ratcheting, marking, moving the window and answering keep windows, index and addresses right |
| GatewayInvariants.FinishIsAccept | aivpn-server/src/gateway.rs:1165-1244 | in the table the session moves exactly as in the single-session runs, then uses a send counter exactly if it answers, or is removed exactly on a shutdown; no other session changes |
| GatewayInvariants.HandshakeOutcome | aivpn-server/src/gateway.rs:998-1142 | a rejected handshake changes no session and no address and loses exactly the tags of its attempts, so leaves a gap exactly when one was indexed; an established one adds exactly one session, removes exactly the former holder of its address and leaves all others untouched; nothing becomes stale in either case |
| Handshakes.LateFirstPacketLeavesGap | aivpn-server/src/gateway.rs:993-1092 | a first packet that comes once more in a far time window, while its session has not switched keys, is rejected without changing any session, and the index has lost tags of that session |
| Handshakes.MatchIsProof | aivpn-server/src/gateway.rs:1038-1062 | an attempt succeeds exactly for an enabled client, within the limits, whose derived keys made the tag, for one of the first 256 counters in a near time window |
| Handshakes.EstablishedExactly | aivpn-server/src/gateway.rs:1035-1142 | a handshake establishes a session exactly when the tag proves the key of some enabled client; it is the first such client's session, under its id and at its address |
| Handshakes.FirstPacketEstablishes | aivpn-server/src/gateway.rs:966-1142 | unless a live session has its first keys already, a registered client's first packet passes by index, refresh and recovery and establishes a session for that very client, within the limits and outside a cooldown |
| PacketRuns.RecoveryGapHappens | aivpn-server/src/session.rs:722-735 | with one new session, recovering its client's counter 300 loses the session's next tags |
| PacketRuns.LookupFindsGenuine | aivpn-server/src/gateway.rs:979-993 | the index, else the refresh of all sessions, finds for a genuine tag of the current or an adjacent time window, under a secret no other live session holds, the right session, counter and key epoch |
| PacketRuns.GenuineIsAlwaysFound | aivpn-server/src/gateway.rs:979-993 | after every run in which no session was opened with a live session's secret, every genuine tag of every live session is found with its counter and key epoch |
| PacketRuns.PacketKeeps | aivpn-server/src/gateway.rs:966-1279 | one whole packet, on every path and with whatever keys: nothing stale, windows exact, addresses inverse; the index loses completeness at most by recovering a session that has not ratcheted, by a clash of a failed attempt, or by a doubled secret; a rejected packet leaves a gap exactly when an attempt clashed |
| PacketRuns.RunsAgree | aivpn-server/src/gateway.rs:966-1279 | over every run of packets, under client lists that may change with every packet, of sends, mask updates and expiries from an empty server: no stale index entry, address map the exact inverse, windows exact; if no session was opened with a live session's secret the sessions share none; if besides no failed attempt clashed and no session was recovered before its ratchet, no missing entry |
| ServerRuns.HandleResolves | aivpn-server/src/gateway.rs:966-1142 | every packet is dropped or finished at exactly one session: found by its tag, recovered, or just opened |
| ServerRuns.StepIsRun | aivpn-server/src/gateway.rs:966-1279 | in every step what happens to a session that stays is a stretch of a single-session run, and the server's logs gain exactly what that stretch seals and accepts |
| ServerRuns.BirthIsRun | aivpn-server/src/gateway.rs:1035-1142 | a session that is opened starts as built, with unused counters and its ServerHello sealed with counter 0 |
| ServerRuns.LifeIsRun | aivpn-server/src/gateway.rs:966-1279 | from its handshake to any state it still lives in, a session of the server has gone through one single-session run, whose logs are the server's |
| ServerRuns.NoncesOfOneLife | aivpn-server/src/session.rs:196-202 | in one life at the server, over every run, no counter is sealed twice with one key |
| ServerRuns.ReplaysOfOneLife | aivpn-server/src/session.rs:234-301 | in one life at the server, recoveries included, a validated counter was not accepted under the current key, or is 256 or more behind the highest |
| ServerRuns.BitmapOfOneLife | aivpn-server/src/session.rs:304-317 | in one life without recovery the bitmap names exactly the counters the server accepted under the current key |
| ServerRuns.AcceptedAgainInLife | aivpn-server/src/gateway.rs:979-1209 | in one life a counter is accepted again under one key only 256 or more behind the highest, or by recovering the highest itself |
| ServerRuns.HighestTakenAgain | aivpn-server/src/gateway.rs:979-997 | a datagram with the highest counter received, from its client's address, whose tag has left the index while its window is near, passes index and refresh and is recovered and accepted again |
| ClientAddresses.StepAddress | aivpn-server/src/gateway.rs:1207-1218 | in every step of the server, a session that was there and stays has the source of the datagram it accepted as its address, or the address it had if it accepted none |
| ClientAddresses.OpeningAddress | aivpn-server/src/session.rs:494-500 | a session just opened has the source of its handshake packet as its address |
| ClientAddresses.AddressOfOneLife | aivpn-server/src/gateway.rs:1207-1218 | over every life of a session its address is the source of the last datagram it accepted, or of its handshake if it has accepted none since |
| Acceptance.TakenExactly | aivpn-server/src/session.rs:234-301 | over every life without recovery a refreshed session takes exactly the tags of near windows for counters it has not accepted within 255 of the highest it has accepted, and until it ratchets those of the first 256 counters of the next key |
| Acceptance.GenuineAcceptedExactly | aivpn-server/src/gateway.rs:979-1202 | a datagram with a genuine tag is accepted, for that session and counter, exactly if it was sealed under the key of its epoch with that counter, from byte 44 on if 60 bytes or longer before any ratchet and from byte 12 on otherwise |
| Acceptance.ReplayIsDropped | aivpn-server/src/gateway.rs:979-989 | a datagram whose indexed tag names a counter its session has received changes nothing at the server |
| Acceptance.AnsweredExactly | aivpn-server/src/gateway.rs:1334-1395 | over every run an accepted datagram of a known session is answered, under the session key, exactly if it is a keepalive or telemetry request, and ends the session exactly if it is a shutdown |
| Admission.LimitsAreRoom | aivpn-server/src/session.rs:449-460 | a session is admitted exactly with fewer than 500 live in all and fewer than 5 of the source |
| Admission.NeverCrowded | aivpn-server/src/session.rs:449-460 | over every run there are at most 500 sessions, and every one was opened while fewer than 500 were live and fewer than 5 had its source |
| Admission.AddressChosen | aivpn-server/src/session.rs:527-543 | a fixed address goes first, then that of a live session of the same source if there is one, then 10.0.0.x with the next octet up to 254, and only the last uses an octet up |
| Admission.RecoveredExactly | aivpn-server/src/session.rs:688-741 | a packet no session takes recovers a session exactly if one of its own source has drifted: current key, near window, and the highest received counter or one 256 to 65535 above |
| Cooldowns.FailuresAreCounted | aivpn-server/src/gateway.rs:1072-1079 | over every run the count and time kept for a source are those of its failed handshakes since it last opened a session |
| Cooldowns.RefusedExactly | aivpn-server/src/gateway.rs:1000-1012 | over every run a packet that comes to the handshake is tried exactly if it has 44 bytes and its source is not waiting: 500 ms after one failure, 1, 2 and 4 seconds after two, three and more |
| KeyReuse.ServerNoncesExactly | aivpn-server/src/session.rs:462-546 | over every run of the server, one session key seals twice with one counter if and only if two steps opened sessions with the same first key |
| KeyReuse.FirstKeyOfStep | aivpn-server/src/session.rs:462-467 | the first key of an opened session is the one derived from the packet's ephemeral key and the matched client's pre-shared key |
| KeyReuse.SameFirstKey | aivpn-server/src/session.rs:462-467 | two first keys are the same exactly for the same ephemeral key and the same pre-shared key |
| KeyReuse.AcceptedInOneLife | aivpn-server/src/gateway.rs:1165-1209 | while no first key comes twice, one session key accepts only in the life of one session |
| KeyReuse.ServerAcceptsTwice | aivpn-server/src/gateway.rs:1165-1209 | while no first key comes twice, a pair of key and counter is accepted twice only within one life of one session, and only 256 or more behind the highest or by recovering the highest itself |
| KeyReuse.DuplicatedFirstPacket | aivpn-server/src/gateway.rs:993-1142 | a client connects and switches keys, and a copy of its first packet opens a second session: the same first key seals with counter 0 again and accepts the packet's counter again |
| GatewayObject.GatewayServer.UpdateClients | aivpn-server/src/gateway.rs:476-485 | the registered clients change while the server runs; sessions, index, addresses and cooldowns stay |
| GatewayObject.GatewayServer.LookupSession | aivpn-server/src/gateway.rs:979-993 | lookup and validation in place do what LookupFindsGenuine reasons about |
| GatewayObject.GatewayServer.OpensUnder | aivpn-server/src/gateway.rs:1152-1181 | a packet opens exactly under the epoch's key, the validated counter and the offset the code computes |
| GatewayObject.GatewayServer.FinishPacket | aivpn-server/src/gateway.rs:1165-1279 | the steps after a session is found, on the live objects, are those FinishKeeps speaks of |
| GatewayObject.GatewayServer.ProcessContent | aivpn-server/src/gateway.rs:1334-1395 | a keepalive or telemetry request consumes one send counter, a shutdown removes the session, the rest changes nothing |
| GatewayObject.GatewayServer.TryOne | aivpn-server/src/gateway.rs:1040-1068 | one attempt creates a session, keeps it if the tag validates and rolls it back otherwise |
| GatewayObject.GatewayServer.TryAllClients | aivpn-server/src/gateway.rs:1035-1070 | the loop over the registered clients stops at the first match; TryClientsOutcome says what it leaves |
| GatewayObject.GatewayServer.EstablishSession | aivpn-server/src/gateway.rs:1108-1142 | cleanup of the former holder and the ServerHello, on the live objects |
| GatewayObject.GatewayServer.DoHandshake | aivpn-server/src/gateway.rs:998-1142 | cooldown, attempts and establishment, with the failure count kept per source address |
| GatewayObject.GatewayServer.ReceivePacket | aivpn-server/src/gateway.rs:966-1279 | the whole call on the live objects is the step that PacketKeeps and RunsAgree are about |
| Client.DecodeRetires | aivpn-common/src/client_wire.rs:218-266 | what is decoded was new and is not any more; what was not new stays so |
| Client.MobileRatchetsAlike | aivpn-common/src/client_wire.rs:268-293 | the mobile clients' handling of a ServerHello packet leaves the same keys, window and counter as the command-line client's |
| Client.AcceptedAtMostOnce | aivpn-client/src/client.rs:599-702 | over every run, with any ServerHellos, fallback decodes and expiries, no pair of session key and counter is accepted twice |
| Client.NoncesNeverRepeat | aivpn-client/src/client.rs:565-583 | over every run the client never seals two packets with one session key and one counter, in upload task and control path together |
| ClientRuns.OnlyTwoEpochs | aivpn-client/src/client.rs:599-623 | over every run a datagram is accepted only under the session keys, or under those from before the last ServerHello less than two seconds after it |
| ClientRuns.FormerKeysExactly | aivpn-client/src/client.rs:599-623 | over every run a genuine datagram under the keys from before the last ServerHello, with a new counter in reach, is accepted exactly less than two seconds after it |
| ClientRuns.PresentKeysAlways | aivpn-client/src/client.rs:606-612 | a genuine datagram under the session keys with a new counter in reach is accepted |
| ClientRuns.MalformedIsMarked | aivpn-common/src/client_wire.rs:228-245 | a datagram that opens to no content is not accepted, but its counter is retired |
| ClientRuns.SwitchIsSigned | aivpn-client/src/client.rs:669-681 | over every run of a client with a signing key, the keys switch only on a ServerHello signed with it over the server and client ephemeral keys |
| ClientRuns.RefusedHelloOnlyMarks | aivpn-client/src/client.rs:669-684 | over every run a ServerHello with another signature or a low-order key leaves keys, counters and upload as they are and marks its counter, no more |
| ClientRuns.SignedHelloSwitches | aivpn-client/src/client.rs:683-710 | a ServerHello with a usable key, signed if a signing key is configured, leads to the keys derived from shared secret, present session key and own key, with new window and counters, and keeps the former keys with their window |
| ClientRuns.ShutdownDisconnects | aivpn-client/src/client.rs:717-720 | a shutdown under the session keys ends the session and the former keys |
| ClientRuns.DisconnectedForGood | aivpn-client/src/client.rs:285-304 | over every run from there on nothing is accepted and no control packet sent |
| ClientRuns.UploadNumbers | aivpn-client/src/client.rs:565-583 | over every run the next sequence number of the upload is its first plus the packets it sealed, modulo 65536 |
| ClientObject.AivpnClient.DecodePacket | aivpn-common/src/client_wire.rs:218-266 | the window is marked before parsing and only when the packet opens |
| ClientObject.AivpnClient.ReceivePacket | aivpn-client/src/client.rs:599-651 | expiry, primary decode and fallback decode, each with its own keys and window object, are the step OnlyTwoEpochs and FormerKeysExactly speak of |
| ClientObject.AivpnClient.HandleContent | aivpn-client/src/client.rs:654-725 | a ServerHello ratchets, a shutdown disconnects, the rest changes nothing here |
| ClientObject.AivpnClient.ProcessServerHello | aivpn-client/src/client.rs:665-710 | keys, window and counters move together, or nothing does when signature, key exchange or session fails: the step SwitchIsSigned and SignedHelloSwitches speak of |
| ClientObject.AivpnClient.StartUpload | aivpn-client/src/client.rs:468-480 | the upload task takes over keys, counter and engine once |
| ClientObject.AivpnClient.SendUpload | aivpn-client/src/client.rs:565-583 | uses and advances the shared counter |
| ClientObject.AivpnClient.SendControl | aivpn-client/src/client.rs:758-800 | uses the shared counter if there is one, else the client's own; fails without an engine |
| Ratchet.RatchetAgreement | aivpn-client/src/client.rs:665-710 | over every run on a network that loses, duplicates and reorders: the session switches keys only after the client; after one ServerHello, whichever copy, the client holds exactly the session's ratcheted keys, or its keys once it switched; they share a key exactly when the client processed at most one |
| Ratchet.TwoHellosDisagree | aivpn-common/src/client_wire.rs:218-238 | from any handshake, two ServerHello copies received within the transition time leave the client on a key the session neither has nor will have |
| Ratchet.StartExists | aivpn-server/src/session.rs:462-525 | every client and server can be in the state right after a handshake |
| SharedCounters.SharedExactly | aivpn-common/src/client_wire.rs:304-307 | over every run client and server both use one (key, counter) pair exactly when both have sealed under that key at all, and then counter 0; different datagrams with one pair come one from each |
| Ratchet.KeysDiffer | aivpn-common/src/crypto.rs:119-149 | the keys after different numbers of ratchets differ, in session key and in tag secret |
| Crypto.SharedCommutes | aivpn-common/src/crypto.rs:108-115 | both sides of a key exchange compute the same shared secret |
| Crypto.NearIsAdjacent | aivpn-server/src/session.rs:258-262 | the neighbouring time windows are those at distance 1 modulo 2^64 |
| Framing.FrameRoundTrip | aivpn-common/src/transport.rs:18-61 | a framed packet comes back, whatever bytes follow, exactly when it has 1 to 1500 bytes |
| Framing.PartialFrame | aivpn-common/src/transport.rs:31-61 | any proper prefix of a frame yields nothing and no error |
| Framing.FrameAnswers | aivpn-common/src/transport.rs:31-61 | an error exactly for a whole prefix of 0 or above 1500, the packet exactly when all its bytes are there, and nothing yet otherwise |
| Framing.PrefixWraps | aivpn-common/src/transport.rs:18-24 | the prefix is the length modulo 65536, high byte first, and the packet follows whole |
| Framing.DrainAppend | aivpn-common/src/transport.rs:81-91 | draining, appending and draining again is draining once |
| Framing.DrainPrefix | aivpn-common/src/transport.rs:81-91 | draining any prefix of a framed stream yields exactly the packets whole in it and leaves exactly the rest |
| Framing.DrainStops | aivpn-common/src/transport.rs:81-91 | all packets before a frame of refused length come out, then the error; that frame stays in the buffer |
| Framing.ChunkingIsIrrelevant | aivpn-common/src/transport.rs:64-96 | any split of any prefix of a framed stream yields the packets whole in that prefix, in order, with exactly the unconsumed bytes left and no error |
| Framing.FrameDecoder.Push | aivpn-common/src/transport.rs:76-79 | bytes are appended to the buffer |
| Framing.FrameDecoder.NextPacket | aivpn-common/src/transport.rs:81-91 | a complete frame is taken off the front; otherwise the buffer stays |
| Framing.FrameDecoder.DrainAll | aivpn-server/src/tls_bridge.rs:153-171 | the loop ends and yields every complete packet |
| Framing.FrameDecoder.FeedAll | aivpn-server/src/tls_bridge.rs:137-171 | pushing and draining chunk by chunk yields what draining all bytes at once yields, also when a frame is refused |
| Codec.HeaderRoundTrip | aivpn-common/src/protocol.rs:82-99 | type and sequence number survive, and the payload follows the four header bytes |
| Codec.HeaderLayout | aivpn-common/src/protocol.rs:82-99 | type 1 to 4 and sequence number, each low byte first; exactly 4 bytes with such a type decode |
| Codec.MaskUpdateRoundTrip | aivpn-common/src/protocol.rs:253-396 | a mask update survives exactly up to 65535 bytes of mask data |
| Codec.ControlRoundTrip | aivpn-common/src/protocol.rs:253-396 | every control message survives encoding, except exactly the oversized mask updates |
| Codec.ControlLayout | aivpn-common/src/protocol.rs:254-308 | every byte of each message: its code 1 to 9, then its fields, numbers low byte first |
| Codec.DecodesExactly | aivpn-common/src/protocol.rs:309-396 | bytes decode exactly if they begin with a known code and hold that message, as long as its length fields say |
| Codec.AckRoundTrip | aivpn-common/src/protocol.rs:411-434 | an acknowledgement survives exactly up to 255 bytes of bitmap |
| Codec.AckLayout | aivpn-common/src/protocol.rs:411-434 | seven fixed bytes and the bitmap; exactly bytes as long as the seventh says decode |
| Wire.NoncesDiffer | aivpn-common/src/client_wire.rs:304-307 | different 64-bit counters give different nonces |
| Wire.NonceLayout | aivpn-common/src/client_wire.rs:304-308 | a nonce is the counter, 64 bits with the low byte first, and four zero bytes |
| Wire.SealedLayout | aivpn-common/src/client_wire.rs:185-216 | a packet is the tag, the header and the ciphertext of padding length, inner packet and padding |
| Wire.ParsesExactly | aivpn-common/src/client_wire.rs:240-266 | decrypted bytes parse exactly if they hold the padding they declare and a header of known type; the payload is what lies between |
| Wire.SealOpen | aivpn-common/src/client_wire.rs:185-266 | whatever header and padding, what is sealed opens at the client to the same counter, type, sequence number and payload, and marks exactly that counter |
| Wire.ZeroMdhRoundTrip | aivpn-common/src/client_wire.rs:185-216 | the plain builder's packets come back for every padding drawn |
| Wire.ZeroMdhHandshake | aivpn-common/src/client_wire.rs:185-216 | the plain builder with a key puts four zero bytes at 8, the key at 12, the ciphertext at 44, pads by 8 to 23 bytes, and its packet opens at the server to the inner packet |
| Wire.ZeroMdhLayout | aivpn-common/src/client_wire.rs:185-216 | without a key it puts four zero bytes at 8 and the ciphertext at 12, and pads by 8 plus the draw modulo 16 |
| Wire.ShapedRoundTrip | aivpn-client/src/mimicry.rs:153-201 | the shaping builder's packets come back for every padding the mask asks for |
| Wire.ControlThroughPacket | aivpn-common/src/client_wire.rs:177-266 | a control message survives encoding, packet, sealing, opening and decoding, except exactly an oversized mask update |
| Abstraction.DecodeAbstracts | aivpn-common/src/client_wire.rs:218-266 | decoding the bytes and decoding the datagram they stand for find the same counter, move the window alike and yield the same content or none |
| Abstraction.SealedStands | aivpn-common/src/client_wire.rs:185-216 | what the senders build stands for the datagram of the protocol modules |
| Abstraction.OpeningAbstracts | aivpn-server/src/gateway.rs:1152-1202 | the server extracts an inner packet from the bytes exactly when the session accepts the datagram they stand for |
| PlainSuite.EarlyDataFails | aivpn-server/src/gateway.rs:1152-1183 | a sound 70-byte data packet before the ratchet is not opened |
| Wire.DataOpensAtServer | aivpn-server/src/gateway.rs:1152-1183 | a packet without ephemeral key opens to its content at the server exactly when it is not a handshake and the session or the tag is ratcheted or it is below 60 bytes |
| Wire.HandshakeOpensAtServer | aivpn-server/src/gateway.rs:1152-1183 | a handshake packet opens to its content at the server, when first seen and when repeated |
| Wire.MimicryEngine.BuildPacket | aivpn-client/src/mimicry.rs:153-201 | the buffers filled step by step are tag, header and sealed padded payload, and one counter is used |
| Wire.MimicryEngine.UpdateMask | aivpn-client/src/mimicry.rs:60-71 | the mask is replaced, so that BuildPacket writes the new header from then on |
| Wire.PresetMdh | aivpn-client/src/mimicry.rs:131-148 | with the preset masks' layout the ephemeral key follows the four template bytes, where the server reads it |
| Wire.MdhLayout | aivpn-client/src/mimicry.rs:131-148 | for any mask the header is the template, lengthened with zeros as needed, with the key over it at its offset |
| Wire.PaddingGiven | aivpn-client/src/mimicry.rs:162-170 | the padding asked for is given while the packet stays within 1380 bytes, else the packet is filled to 1380 or left bare |
| Wire.ShapedSize | aivpn-client/src/mimicry.rs:153-201 | a shaped packet is never below its unpadded size and never above 1380 bytes unless that already is |
| Wire.TunnelPacketFits | aivpn-client/src/tunnel.rs:12-16 | a tunnel packet fits 1380 bytes for every padding exactly when it has at most 1346 bytes |
| Checksum.FoldIsMod | aivpn-server/src/gateway.rs:793-814 | folding the carries ends and keeps the sum modulo 65535, giving 65535 rather than 0 for a non-zero multiple |
| Checksum.ComplementCompletes | aivpn-server/src/gateway.rs:793-814 | any sum plus the complement of its fold folds to all ones |
| Checksum.WordsAddUp | aivpn-server/src/gateway.rs:793-806 | words are big-endian and add up; an odd last byte counts as the high half of a word |
| Checksum.FilledInSumsToOnes | aivpn-server/src/gateway.rs:745-790 | data with the checksum filled in at an even place sums to all ones (section 1 of RFC 1071) |
| Checksum.ComputeChecksum | aivpn-server/src/gateway.rs:793-814 | the two loops, in 32-bit arithmetic without overflow, give the complement of the folded word sum |
| Checksum.BuildIcmpEchoReply | aivpn-server/src/gateway.rs:745-790 | a reply exactly for an echo request of at least 28 bytes; its ICMP part sums to all ones and keeps length, identifier, sequence number and data; the addresses are set |
| MaskCatalog.VariantIdsDiffer | aivpn-server/src/gateway.rs:124-140 | different variant numbers give different ids in either template, and no variant has a preset's id |
| MaskCatalog.VariantIdsLookLike | aivpn-server/src/gateway.rs:136-140 | two ids, one of each template |
| MaskCatalog.RecycleKeeps | aivpn-server/src/gateway.rs:236-249 | recycling forgets exactly the expired ids, adds exactly one new mask each, loses none, and keeps masks and compromised ids apart |
| MaskCatalog.RecycleMakes | aivpn-server/src/gateway.rs:236-249 | every mask stays as it is, and the k-th expired id is replaced by a mask with the k-th next number and its own drawn template and fingerprint |
| MaskCatalog.FallbackExactly | aivpn-server/src/gateway.rs:251-265 | one more variant is made exactly when at most one mask is left; no fallback exactly when the pool is empty, nothing has cooled down, and the current mask has the id of the next variant |
| MaskCatalog.RotationAlwaysFinds | aivpn-server/src/gateway.rs:549-577 | rotating away from any mask ever issued finds another one that is not compromised |
| MaskCatalog.EveryRotationFinds | aivpn-server/src/gateway.rs:549-577 | over every run of rotations from the initial pool each rotation finds a different mask that is not compromised, so the branch without fallback is not reached |
| MaskCatalog.HeldExactly | aivpn-server/src/gateway.rs:236-249 | over every run of rotations a mask is held as compromised from its last rotation to the first rotation more than 300 seconds later |
| MaskCatalog.MaskPool.MarkMaskCompromised | aivpn-server/src/gateway.rs:118-122 | the mask leaves the pool and its cool-down starts |
| MaskCatalog.MaskPool.RecycleExpired | aivpn-server/src/gateway.rs:236-249 | exactly the ids past 300 seconds are recycled, in any order of the map |
| MaskCatalog.MaskPool.SelectFallback | aivpn-server/src/gateway.rs:251-265 | a mask is returned exactly when one other than the current exists after recycling, and it is such a mask |
| ClientDb.AddKeeps | aivpn-server/src/client_db.rs:105-143 | refused exactly for a known name or past address 254; otherwise one client is appended, enabled, with the key given, the next octet, which nobody else has, and zero statistics, and the next octet goes up by one |
| ClientDb.DeleteKeeps | aivpn-server/src/client_db.rs:146-156 | refused exactly for an unknown id; otherwise exactly the clients without the id remain, and no octet is given back |
| ClientDb.BumpOnlyAdds | aivpn-server/src/client_db.rs:185-202 | each counter grows by its part of the delta at the client with the id and nothing else changes |
| ClientDb.ReloadKeeps | aivpn-server/src/client_db.rs:237-270 | the file replaces clients and next octet exactly when the ids differ; a surviving client keeps the statistics held in memory, a new one those of the file |
| ClientDb.RunKeeps | aivpn-server/src/client_db.rs:105-270 | over every run of additions, removals, updates and reloads of well-formed files, ids, names and addresses stay distinct, every address is below the next octet and that at most 255, and each event adds exactly its own numbers to its own client |
| ClientDb.Room | aivpn-server/src/client_db.rs:105-143 | an empty database takes 253 clients of different names; the k-th, counted from 0, gets 10.0.0.(2 + k) and its own key, enabled, with zero statistics |
| ClientDb.NoRoomForMore | aivpn-server/src/client_db.rs:114-116 | the 254th is refused |
| ClientDb.ClientDatabase.NewClient | aivpn-server/src/client_db.rs:105-143 | the name check, the address limit and the append in place are the addition AddKeeps and Room speak of |
| ClientDb.ClientDatabase.DeleteClient | aivpn-server/src/client_db.rs:146-156 | retaining in place is the deletion DeleteKeeps speaks of |
| ClientDb.ClientDatabase.Record | aivpn-server/src/client_db.rs:185-202 | the first client with the id is updated in place, as BumpOnlyAdds describes |
| ClientDb.ClientDatabase.ReloadFromDisk | aivpn-server/src/client_db.rs:237-270 | reports a change exactly when the id sets differ, and then is the reload ReloadKeeps speaks of |

## Left out

- Cipher, hash, key exchange and signature internals (aivpn-common/src/crypto.rs): entered as terms or as an argument with stated properties.
- Sockets, TLS, TUN devices, routes and files: only the bytes and the state they hand over are modelled.
- Interleavings inside one operation: the locks and the shared pointers to a session taken by several tasks at once. Sharing itself is modelled, a session object is reached through the manager's map and updated in place.
- Session expiry: an idle or expired session is removed by an event that may happen at any time, without timestamps.
- `Acceptance.TakenExactly`: lives without counter recovery, as `SessionRun.BitmapOverRuns`; with recoveries `ServerRuns.ReplaysOfOneLife` and `Acceptance.GenuineAcceptedExactly` hold, the latter from the bitmap instead of the log.
- `SessionRun.BitmapOverRuns`: the exact meaning of the bitmap is for runs without counter recovery, which breaks it as `SessionRun.RecoveryKeepsBitmapExactly` states; with recoveries one half remains (`SessionRun.CoverOverRuns`).
- `Ratchet.RatchetAgreement`: one session and one client; a handshake packet delivered again after the ratchet opens another session for the same client (`KeyReuse.DuplicatedFirstPacket`), and agreement with that one is not claimed.
- `PacketRuns.PacketKeeps`: for a packet that establishes a session, conditions under which the index stays complete, not the exact ones: a later step of the same packet may fill a gap again.
- `KeyReuse.ServerAcceptsTwice`: first keys that come twice are the other way a pair is accepted twice; `KeyReuse.DuplicatedFirstPacket` is the case, not every such pair of sessions accepts a common counter.
- `Client.NoncesNeverRepeat`: the farewell control packet of `disconnect` is not a step; the client only receives after the upload task has taken the engine, and without the engine that packet is not built.
- `MaskCatalog.EveryRotationFinds`: runs that make fewer than 2^32 variants, after which the variant counter wraps; masks registered from outside are not part of these runs.
- `ClientDb.RunKeeps`: a file read back from disk is taken to be well formed, which nothing in the code checks.
- `Wire.DataOpensAtServer`: the server's packets and the mimicry client's have the four-byte header of the presets.
- `Wire.MimicryEngine.BuildPacket`: the padding asked for is an argument; size and timing distributions and the mask's state machine are floating point and tables.
- `Checksum.BuildIcmpEchoReply`: requests up to the length for which the 32-bit sum cannot overflow, far above any packet; a longer one would overflow in the source.
- Decoder behaviour on malformed control bytes beyond the modelled error cases: an index out of bounds in the source is the error `OutOfBounds`.
- Sequence numbers other than the upload task's, byte counters of a session and the periodic flush of statistics: bookkeeping without influence on acceptance.
- What a mask update changes in a session (`update_session_mask`); that it is sent uses a send counter and is an event of the runs. Key rotation and fragments: one-branch code or placeholders.
- Neural scoring, metrics, the admin backend, deployment and the desktop, mobile and web front ends.
