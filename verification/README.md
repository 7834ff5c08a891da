# Pairing, signaling and face-box post-processing, modelled in Dafny

This project models the parts of a photo-vault desktop application that hold
real logic. It covers five pieces:

- **the signaling relay** (`signaling-server/src/main.rs`): a registry
  `room id -> (device id -> client handle)` that lets two devices meet, and
  each connection's receive loop that joins, relays and cleans up;
- **pairing-code derivation** (`src-tauri/src/server.rs`): the four-word
  passphrase and its hex `uuid` twin, and the sanitise-then-hash step that
  turns either spelling into the same room id;
- **the negotiation client** (`src-tauri/src/transport.rs`):
  `WebRtcClient::start`, which joins the room, makes the offer when it is the
  initiator, answers offers and adds candidates;
- **face-detector post-processing** (`src-tauri/src/face_detector.rs`): the
  4420-entry prior-box grid and greedy non-maximum suppression;
- **local-address discovery** (`src-tauri/src/lib.rs`): the RFC 1918 test and
  the first-match search over network interfaces.

Files and modules:

| file | module | contents |
|---|---|---|
| `wrappers.dfy` | `Wrappers` | `Option` and `Result` |
| `signal.dfy` | `Signal` | `SignalMessage` (one datatype for the relay's copy and the client's copy) and `Frame`, one item read from a websocket |
| `relay.dfy` | `Relay` | the relay as a value (`State`, `Step`, `Run`) with its invariant and properties, and the class `RelayServer`, which performs the same steps in place |
| `pairing.dfy` | `Pairing` | UTF-8, lowercase Base16 (section 8 of RFC 4648), the sanitiser, `split`/`join`, `generate_pairing_codes`, `hash_pairing_code` |
| `negotiation.dfy` | `Negotiation` | the client as a trace of calls into the websocket and the peer connection, and the class `WebRtcClient` |
| `face_detector.dfy` | `FaceDetector` | the stable score sort, `nms` over an `array`, and the anchor grid |
| `network.dfy` | `Network` | `is_local_network_ip` and `get_ip` |

How the foreign parts are represented:

- **Relay.** Each step of a receive loop that holds the registry's lock is one
  atomic step. A rejected Join takes the lock twice: once to answer the error
  and break out of the loop, and once more for the cleanup. It is therefore two
  steps, and other connections may act between them. A client handle is the sending half of its connection's queue,
  so the registry maps a device id to a connection number, and the queues are
  kept per connection.
- **Client.** Every websocket or peer-connection call is an `Action`,
  recorded in the trace whether it succeeds or not. An `Env` value decides
  each call's success from the trace so far, produces the session
  descriptions, and says whether a payload decodes.
- **Pairing.** SHA-256 is a parameter returning a 32-byte digest, and
  `Mnemonic::from_entropy` is a parameter returning the word list or an
  error text.
- **Face detector.** Scores are exact reals, and `iou` is a parameter.

Behaviours of the code a reader may not expect:

- A Join into a full room records the joiner's id (main.rs:104) before the
  capacity check. The cleanup that runs after the loop breaks out uses that id.
  It removes whatever entry holds the id when the cleanup gets the lock, and it
  tells the remaining members that the rejected id disconnected. So a rejected
  join can change membership. It can even evict a device that joined under
  the same id in the meantime, while that device's connection stays open.
- A departing device is announced once per registry entry (main.rs:149-152).
  A connection that joined under two ids therefore hears it twice. "Exactly
  one PeerDisconnected" holds when the remaining entries belong to different
  connections (`Relay.EachPeerToldOnce`).
- A Join with the empty id is inserted (main.rs:119), but the cleanup skips
  the empty id (main.rs:143), so that entry is never removed.
- The client ignores websocket read errors (transport.rs:207). The end of the
  stream makes `start` return `Ok(())` (transport.rs:246), not an error.

## Model

| member | source | states |
|---|---|---|
| Relay.NotifiedDelivers | signaling-server/src/main.rs:149-152 | notifying only appends copies of the message; every queue an entry writes to gains at least one, and a queue no entry writes to is unchanged |
| Relay.Opened | signaling-server/src/main.rs:82-95 | a new socket appends one connection for its room, with an empty device id, a running loop and an empty queue; the registry and every earlier connection and queue are unchanged, and the invariant is kept |
| Relay.Enqueued | signaling-server/src/main.rs:114-115 | a send appends the message to that one queue and changes nothing else |
| Relay.Relayed | signaling-server/src/main.rs:170-178 | relaying never changes the registry or the connections, and keeps the registry well formed |
| Relay.LeavingKeepsInvariant | signaling-server/src/main.rs:146-157 | removing an id, notifying the rest and deleting an emptied room keeps every entry pointing at a connection of that room and every room at one or two entries |
| Relay.CleanedUp | signaling-server/src/main.rs:142-159 | the cleanup keeps the registry well formed and within capacity and never changes the connections |
| Relay.WithPhase | signaling-server/src/main.rs:116-160 | a task moving on (breaking out of its loop, or finishing its cleanup) changes that one connection's phase and nothing else |
| Relay.Ended | signaling-server/src/main.rs:142-160 | cleanup followed by closing the connection keeps the invariant |
| Relay.Named | signaling-server/src/main.rs:104-104 | recording the device id changes that one connection's id and nothing else |
| Relay.Admitted | signaling-server/src/main.rs:107-119 | inserting into a room with fewer than two entries keeps the invariant and touches no queue and no connection |
| Relay.Joined | signaling-server/src/main.rs:103-119 | a Join, admitted, or rejected and left to clean up later, keeps the registry well formed and every room at one or two entries |
| Relay.Step | signaling-server/src/main.rs:99-159 | one iteration of the receive loop keeps the invariant and the number of connections |
| Relay.StepKeepsInv | signaling-server/src/main.rs:113-119 | every step of every connection preserves the capacity invariant |
| Relay.Apply | signaling-server/src/main.rs:74-80 | accepting a socket, delivering a frame to a running loop, or the late cleanup of a rejected joiner preserves the invariant |
| Relay.RunKeepsCapacity | signaling-server/src/main.rs:113-119 | under any interleaving of connections and frames no room ever holds more than two entries |
| Relay.CapacityFromStart | signaling-server/src/main.rs:58-58 | from the empty registry, every room that exists holds one or two entries, after any run |
| Relay.JoinCreatesRoom | signaling-server/src/main.rs:107-119 | a Join for an unknown room creates it with the joiner as the only entry, records the id and enqueues nothing |
| Relay.JoinWithRoomInserts | signaling-server/src/main.rs:113-119 | a Join into a room with fewer than two entries adds (or overwrites) the joiner's entry, enqueues nothing and keeps the loop running |
| Relay.JoinFullRoomIsRejected | signaling-server/src/main.rs:104-117 | a Join into a room with two or more entries records the id, puts exactly `Error{"Room is full"}` on the joiner's own queue and leaves its task ending; the registry, every other connection and every other queue are unchanged |
| Relay.ResumeRunsCleanup | signaling-server/src/main.rs:143-159 | when a task that broke out of its loop takes the lock again, it runs the cleanup and then closes |
| Relay.LateCleanupEvictsNamesake | signaling-server/src/main.rs:104-147 | the late cleanup removes the entry that holds the rejected id at that time, even one belonging to another connection, which keeps its phase |
| Relay.RejectionThenCleanup | signaling-server/src/main.rs:104-158 | a rejection under a new id, cleaned up at once, leaves the registry as it was, closes the joiner with the error on its queue, and still tells each member that the rejected id disconnected |
| Relay.RejectedJoinerEvictsNamesake | signaling-server/src/main.rs:104-147 | a rejected joiner whose id equals a member's removes that member when its cleanup runs, leaving one entry |
| Relay.RelayReachesOnlyTarget | signaling-server/src/main.rs:121-136 | Offer, Answer and IceCandidate reach the target's queue unchanged and no other queue, membership is untouched, and with no such room or target nothing changes |
| Relay.DisconnectCleansUp | signaling-server/src/main.rs:143-158 | at the end of a joined connection its id leaves the room, the room is deleted exactly when nothing is left, other rooms are unchanged and each remaining entry's queue gets PeerDisconnected naming the id |
| Relay.EndRunsCleanup | signaling-server/src/main.rs:99-143 | a non-text frame ends the loop: cleanup, then the connection is closed |
| Relay.EachPeerToldOnce | signaling-server/src/main.rs:149-152 | when the remaining entries belong to different connections, each gets exactly one PeerDisconnected |
| Relay.NeverJoinedLeavesNoTrace | signaling-server/src/main.rs:143-143 | a connection that never joined changes no room and no queue when it ends |
| Relay.IgnoredMessages | signaling-server/src/main.rs:101-137 | undecodable text and client-sent PeerDisconnected or Error change nothing |
| Relay.RelayServer.constructor | signaling-server/src/main.rs:58-58 | the registry starts empty, with no connections |
| Relay.RelayServer.Accept | signaling-server/src/main.rs:82-95 | the new connection's number is the old count, and the state is `Opened` of the old one, keeping the invariant |
| Relay.RelayServer.Receive | signaling-server/src/main.rs:99-140 | the in-place loop iteration yields exactly `Step` of the old state and keeps the invariant |
| Relay.RelayServer.RelayMessage | signaling-server/src/main.rs:170-178 | the in-place lookup and enqueue equals `Relayed` |
| Relay.RelayServer.Join | signaling-server/src/main.rs:103-119 | the in-place Join equals `Joined` |
| Relay.RelayServer.Reject | signaling-server/src/main.rs:113-117 | the in-place rejection: the error on the joiner's own queue, and its task ending |
| Relay.RelayServer.Resume | signaling-server/src/main.rs:143-159 | the in-place late cleanup equals `Apply` of the `Resume` event and keeps the invariant |
| Relay.RelayServer.Notify | signaling-server/src/main.rs:149-152 | sending through the entries one at a time yields `Notified` |
| Relay.RelayServer.End | signaling-server/src/main.rs:142-159 | the in-place cleanup and close equal `Ended` |
| Relay.RelayServer.Cleanup | signaling-server/src/main.rs:143-158 | the in-place removal, notification and room deletion equal `CleanedUp` |
| Pairing.Utf8Char | src-tauri/src/server.rs:32-32 | a character encodes to one to four bytes, one byte exactly for ASCII, and that byte is the code |
| Pairing.Utf8CharDecodes | src-tauri/src/server.rs:32-32 | a character outside ASCII encodes to two, three or four bytes exactly as its value lies below 0x800, below 0x10000 or above; the lead byte carries that length, the other bytes are continuation bytes, and the bytes decode back to the character |
| Pairing.Utf8OfAscii | src-tauri/src/server.rs:32-32 | the bytes of ASCII text are its character codes, one per character |
| Pairing.HexEncode | src-tauri/src/server.rs:32-32 | hex encoding doubles the length and uses only the digits 0-9 and a-f |
| Pairing.HexValue | src-tauri/src/server.rs:32-32 | a character is a nibble exactly when it is a lowercase hex digit, and it maps back to that digit |
| Pairing.HexRoundTrip | src-tauri/src/server.rs:32-32 | decoding the hex encoding gives back the bytes |
| Pairing.ToLowercase | src-tauri/src/server.rs:45-45 | same length; each capital A-Z becomes the letter 32 code points above it (its lowercase); every other character unchanged |
| Pairing.Trim | src-tauri/src/server.rs:45-45 | the result is empty exactly when the input is all white space; otherwise it neither starts nor ends with white space; input without white-space ends is unchanged |
| Pairing.TrimKeepsInfix | src-tauri/src/server.rs:45-45 | the trimmed text is an infix of the input with only white space cut before and after it |
| Pairing.ReplaceSpaces | src-tauri/src/server.rs:45-45 | same length, no space left, each space becomes a hyphen and every other character stays |
| Pairing.TrimmedLowerIsSanitized | src-tauri/src/server.rs:45-45 | trimming lowercase text and replacing its spaces leaves text with no capital, no space and no white-space end |
| Pairing.Sanitize | src-tauri/src/server.rs:45-45 | lowercase, then trim, then spaces to hyphens yields sanitised text |
| Pairing.SanitizeReplacesOnly | src-tauri/src/server.rs:45-45 | lowercase text without white-space ends only has its spaces replaced |
| Pairing.SanitizeFixes | src-tauri/src/server.rs:45-45 | sanitised text is left as it is |
| Pairing.SanitizeIdempotent | src-tauri/src/server.rs:45-45 | sanitising twice is sanitising once |
| Pairing.SanitizeIgnoresCase | src-tauri/src/server.rs:45-45 | an input sanitises as its lowercase form does |
| Pairing.TrimUnique | src-tauri/src/server.rs:45-45 | `trim` gives exactly the infix with white space before and after it and none at its own ends |
| Pairing.TrimIgnoresPadding | src-tauri/src/server.rs:45-45 | white space added around a text does not change what `trim` keeps |
| Pairing.LowercasePadded | src-tauri/src/server.rs:45-45 | lowercasing leaves white space alone, so padding and text are lowercased separately |
| Pairing.SanitizeIgnoresPadding | src-tauri/src/server.rs:45-45 | input with white space around it sanitises as its lowercase text does |
| Pairing.Split | src-tauri/src/server.rs:48-48 | `split` gives one more field than separators, no field holds the separator, and joining the fields gives the input back |
| Pairing.SplitJoin | src-tauri/src/server.rs:48-48 | splitting separator-free parts joined by the separator gives the parts back |
| Pairing.SplitUnique | src-tauri/src/server.rs:48-48 | separator-free fields that join to a string are that string's split |
| Pairing.JoinOccurrences | src-tauri/src/server.rs:32-32 | joining n separator-free parts puts exactly n - 1 separators in the result |
| Pairing.Take | src-tauri/src/server.rs:29-29 | `take(4)` keeps the first four words, or all of them when there are fewer |
| Pairing.GeneratePairingCodes | src-tauri/src/server.rs:17-38 | a mnemonic failure gives `Err("Failed to generate mnemonic: …")`; otherwise the passphrase is the first four words and the uuid is lowercase hex that decodes to the UTF-8 bytes of the words joined by "-" |
| Pairing.RawPayload | src-tauri/src/server.rs:48-52 | four hyphen fields are hex-encoded (decoding back to the sanitised bytes); any other field count passes the sanitised text through |
| Pairing.HashPairingCode | src-tauri/src/server.rs:43-60 | never fails; the room id is 64 lowercase hex digits that decode to SHA-256 of the payload's bytes |
| Pairing.SameSanitizedSamePayload | src-tauri/src/server.rs:45-52 | inputs with the same sanitised form have the same payload |
| Pairing.HashSeesOnlySanitized | src-tauri/src/server.rs:43-60 | an input and its sanitised form give the same room id |
| Pairing.HashIgnoresCaseAndPadding | src-tauri/src/server.rs:43-60 | a code typed in capitals or with white space around it gives the same room id as the lowercase code |
| Pairing.WordLineSanitizes | src-tauri/src/server.rs:45-45 | lowercase words joined by a space or hyphen have no capital and no white-space end, and joined by hyphens they are already sanitised |
| Pairing.UuidPassesThrough | src-tauri/src/server.rs:48-52 | a hex uuid is already sanitised, has one hyphen field and is hashed as it is |
| Pairing.JoinedWords | src-tauri/src/server.rs:32-32 | words joined by a separator consist of letters and that separator, with a letter at each end |
| Pairing.SpacesBecomeHyphens | src-tauri/src/server.rs:45-45 | replacing spaces turns the words joined by spaces into the words joined by hyphens |
| Pairing.HyphenFormPayload | src-tauri/src/server.rs:48-52 | four words typed with hyphens are hex-encoded, giving the uuid's payload |
| Pairing.SpaceFormSanitizes | src-tauri/src/server.rs:45-45 | the words typed with spaces sanitise to the words joined by hyphens |
| Pairing.QrAndTypedFormsAgree | src-tauri/src/server.rs:29-57 | for codes from lowercase mnemonic words, the uuid, the words typed with hyphens and the words typed with spaces all hash to the same room id |
| Negotiation.SignalingAddress | src-tauri/src/transport.rs:48-48 | the address is the signaling url, then "/ws/", then the room id, so both can be read back from it |
| Negotiation.Do | src-tauri/src/transport.rs:51-54 | after a failure nothing more happens; otherwise the call is recorded and the session fails exactly when the call does |
| Negotiation.ConnectingAlong | src-tauri/src/transport.rs:48-92 | the connect, the Join and the peer connection are made in that order, stopping at the first failure |
| Negotiation.OfferingAlong | src-tauri/src/transport.rs:125-166 | the initiator's data channel, offer, local description and Offer send continue the script in that order |
| Negotiation.ScriptIsWellOrdered | src-tauri/src/transport.rs:48-166 | the opening script connects first, sends Join first, addresses "peer" and creates the channel before the Offer, for the initiator only |
| Negotiation.OpeningFollowsScript | src-tauri/src/transport.rs:48-166 | `start`'s calls are a prefix of the opening script; when it reaches the loop they are the whole script; it either listens or has failed |
| Negotiation.OpeningIsWellOrdered | src-tauri/src/transport.rs:60-166 | whatever the world does, the opening keeps the order: Join first, "peer" targets, channel then offer, initiator only |
| Negotiation.AnsweringAlong | src-tauri/src/transport.rs:212-227 | the answering calls follow the answer script, stopping at the first failure |
| Negotiation.OfferGetsOneAnswer | src-tauri/src/transport.rs:210-228 | an offer that decodes sets the remote description, creates and sets an answer and sends exactly one Answer to "peer", in that order; one that does not decode fails the session and calls nothing |
| Negotiation.SendsOfAnswerScript | src-tauri/src/transport.rs:210-228 | the answer script sends exactly one message |
| Negotiation.AnswerAndCandidateSendNothing | src-tauri/src/transport.rs:230-239 | a received Answer only sets the remote description and a received IceCandidate only adds it; neither sends anything |
| Negotiation.LoopOutcomes | src-tauri/src/transport.rs:206-246 | non-text frames, read errors, undecodable text, Join, PeerDisconnected and Error change nothing; end of stream ends with Ok; an undecodable payload ends with an error and calls nothing |
| Negotiation.TrickleSendsOnePerCandidate | src-tauri/src/transport.rs:98-122 | one IceCandidate to "peer" per encoded local candidate, nothing for none |
| Negotiation.SendsAppend | src-tauri/src/transport.rs:46-247 | the sends of two traces add up |
| Negotiation.AnsweringKeepsOrder | src-tauri/src/transport.rs:210-228 | answering keeps the session's order |
| Negotiation.DispatchKeepsOrder | src-tauri/src/transport.rs:206-244 | every turn of the receive loop keeps the order |
| Negotiation.TrickleKeepsOrder | src-tauri/src/transport.rs:103-119 | the candidate callback keeps the order |
| Negotiation.SessionKeepsOrder | src-tauri/src/transport.rs:46-247 | for any sequence of frames and local candidates, every session keeps the order |
| Negotiation.RunKeepsOrder | src-tauri/src/transport.rs:206-244 | a session that keeps the order keeps it through any events |
| Negotiation.WebRtcClient.constructor | src-tauri/src/transport.rs:39-43 | a client with its room, role and url, before `start` |
| Negotiation.WebRtcClient.Perform | src-tauri/src/transport.rs:51-54 | one fallible call in place equals `Do` and reports success |
| Negotiation.WebRtcClient.Start | src-tauri/src/transport.rs:46-202 | the client takes the given device id, the in-place opening equals `Opening` at the client's address, and the order is kept |
| Negotiation.WebRtcClient.AnswerOffer | src-tauri/src/transport.rs:212-227 | the in-place answer equals `Answering` |
| Negotiation.WebRtcClient.Receive | src-tauri/src/transport.rs:206-244 | the in-place loop turn equals `Dispatch` and keeps the order |
| Negotiation.WebRtcClient.HandleMessage | src-tauri/src/transport.rs:209-241 | the in-place handling of a decoded message equals `Handle` |
| Negotiation.WebRtcClient.OnIceCandidate | src-tauri/src/transport.rs:98-122 | the in-place callback equals `Trickle` and keeps the order |
| FaceDetector.Insert | src-tauri/src/face_detector.rs:62-62 | inserting adds exactly the one proposal |
| FaceDetector.InsertKeepsOrder | src-tauri/src/face_detector.rs:62-62 | inserting into a list sorted by non-increasing score keeps it sorted and adds nothing else |
| FaceDetector.SortByScore | src-tauri/src/face_detector.rs:62-62 | the result is a permutation of the input in non-increasing score order |
| FaceDetector.InsertIsStable | src-tauri/src/face_detector.rs:62-62 | insertion places the proposal after every one of equal score |
| FaceDetector.SortIsStable | src-tauri/src/face_detector.rs:62-62 | among equal scores, the sorted order is the input order |
| FaceDetector.KeepOneMore | src-tauri/src/face_detector.rs:71-79 | keeping index i and marking what it overlaps leaves the suppressed flags equal to "covered by a kept earlier box" |
| FaceDetector.Suppress | src-tauri/src/face_detector.rs:64-81 | the kept indices are strictly increasing, in range, and exactly the proposals no earlier kept box overlaps |
| FaceDetector.SuppressOverlapping | src-tauri/src/face_detector.rs:72-79 | the inner loop marks exactly the later proposals that box i overlaps above the threshold, and keeps every other flag |
| FaceDetector.Nms | src-tauri/src/face_detector.rs:61-82 | the array ends up stably sorted by score, and the indices returned are the greedy choice over that sorted order |
| FaceDetector.GreedyKeepGuarantees | src-tauri/src/face_detector.rs:64-81 | with any input, index 0 is kept; no two kept boxes overlap earlier-against-later; every dropped box is overlapped by an earlier kept one |
| FaceDetector.GreedyKeepIsUnique | src-tauri/src/face_detector.rs:64-81 | only one list of indices has these properties, so the result of `nms` is determined |
| FaceDetector.CentresInsideInput | src-tauri/src/face_detector.rs:21-24 | every anchor centre lies inside the input: 0 < cx < 1 and 0 < cy <= 1; each level's columns tile the 320-pixel width exactly and its rows cover the 240-pixel height |
| FaceDetector.Grid | src-tauri/src/face_detector.rs:14-29 | a grid has as many anchors as its levels' rows × columns × sizes |
| FaceDetector.OffsetFormula | src-tauri/src/face_detector.rs:14-28 | an anchor's offset is the earlier levels' total plus (row × columns + column) × sizes + size |
| FaceDetector.LevelSizes | src-tauri/src/face_detector.rs:5-11 | the levels hold 3600, 600, 160 and 60 anchors |
| FaceDetector.AnchorCount | src-tauri/src/face_detector.rs:4-11 | 4420 anchors in all, the levels starting at 0, 3600, 4200 and 4360 |
| FaceDetector.GridOrder | src-tauri/src/face_detector.rs:14-29 | every anchor sits at its offset, so the grid is ordered by level, then row, then column, then size |
| FaceDetector.GenerateAnchors | src-tauri/src/face_detector.rs:3-31 | the anchors produced are the grid of the four levels |
| FaceDetector.GridAnchors | src-tauri/src/face_detector.rs:14-30 | the level loop produces the grid of any list of levels |
| FaceDetector.LevelAnchors | src-tauri/src/face_detector.rs:18-28 | the row loop produces one level's anchors |
| FaceDetector.RowAnchors | src-tauri/src/face_detector.rs:19-27 | the column and size loops produce one row's anchors |
| Network.LocalIffRfc1918 | src-tauri/src/lib.rs:58-62 | the octet test holds exactly for addresses in 10/8, 172.16/12 or 192.168/16, the blocks of section 3 of RFC 1918 |
| Network.FirstTwoOctetsDecide | src-tauri/src/lib.rs:59-61 | the answer depends only on the first two octets |
| Network.RangeBoundaries | src-tauri/src/lib.rs:59-61 | 172.16 and 172.31 are local, 172.15 and 172.32 are not; 192.168 is local, 192.169 is not; 10.255 is local, 11.0 is not |
| Network.Decimal | src-tauri/src/lib.rs:49-49 | decimal text is non-empty digits without a leading zero |
| Network.DecimalRoundTrip | src-tauri/src/lib.rs:49-49 | reading the decimal text back gives the number |
| Network.DisplayParses | src-tauri/src/lib.rs:49-49 | split at its dots, the dotted text has exactly four fields, the decimal text of each octet in order, and each field denotes its octet |
| Network.FirstLocalIsFirst | src-tauri/src/lib.rs:45-53 | the search finds nothing exactly when no interface has a private IPv4 address; otherwise it finds the earliest one, skipping IPv6 |
| Network.GetIp | src-tauri/src/lib.rs:41-56 | the result is the dotted form of the first private IPv4 address, and "" exactly when there is none |

## Left out

- The relay's task structure is not modelled: tokio tasks, the `select!` at main.rs:163-166, the `RwLock`, the unbounded channels, axum routing, and the port and logging setup. Every locked step is atomic.
- When a connection's writer task ends first, `select!` aborts the receive task and its cleanup never runs. The model has no writer task, so it does not capture the stale entry this leaves.
- Failed queue sends are dropped silently, as in the source. Delivery from a queue to its socket is not modelled.
- JSON encoding and decoding of `SignalMessage` is opaque. A frame arrives already decoded, or marked as not decoding.
- Relay.RelayServer.Join: the registry entry `or_insert_with` creates is a local lookup with the empty room as default. A room it creates is always filled by the insert that follows, because an empty room is never full, so the registry's observable states are the same.
- Pairing.ToLowercase: lowercases ASCII letters only. Rust's full Unicode case mapping, which can change a string's length, is not modelled.
- Pairing.GeneratePairingCodes: the 16 bytes of OS entropy are a parameter, and a failure of `OsRng` is not modelled. BIP-39 word selection is a parameter.
- Pairing.HashPairingCode: SHA-256 (FIPS 180-4) is a parameter. Only its 32-byte output length is used.
- Pairing.QrAndTypedFormsAgree: requires the mnemonic's first four words to be lowercase ASCII letters, as BIP-39's English list spells them.
- The peer connection's STUN configuration, media engine and interceptors (transport.rs:73-92) are abstracted. SDP and ICE semantics are abstracted too. Each is one fallible call.
- The data-channel callbacks and their file-transfer stub (transport.rs:131-150 and 168-193) are not modelled. The peer-connection state callback (transport.rs:197-202) only prints.
- Negotiation.WebRtcClient.OnIceCandidate: modelled only between loop turns, never inside `start`'s opening or inside a loop turn. The source can fire it from its registration (transport.rs:98) onward. It sends through the shared `write` lock (transport.rs:110-114), so it can also run while a loop turn awaits, for instance between `set_local_description(answer)` and the `Answer` send (transport.rs:219-228). Negotiation.Answering and Negotiation.WebRtcClient.AnswerOffer are one step, so no modelled trace has an `IceCandidate` ahead of the `Answer`, and none has one ahead of the `Offer`. In the source, a candidate can reach the peer before the description it belongs to. Negotiation.WellOrdered's "Offer at position 6", Negotiation.OpeningFollowsScript, Negotiation.OpeningIsWellOrdered and the order lemmas built on them (Negotiation.SessionKeepsOrder, Negotiation.RunKeepsOrder) rely on the callback not interleaving within `start`'s opening or within a loop turn.
- Negotiation.WebRtcClient.AnswerOffer: the answer's four calls are one atomic step, so a local candidate the callback sends during the awaits between them is not modelled (see the OnIceCandidate line above).
- Negotiation.Do: a failed call is still recorded in the trace before the session fails. `?` is a single failure; the error value is not kept.
- The device id's randomness (`Uuid::new_v4`, transport.rs:61) is not modelled. `Start` takes the id as a parameter.
- The floating-point arithmetic of `decode` (face_detector.rs:33-43) and `iou` (face_detector.rs:45-59) is not modelled. `iou` is a parameter, and `decode` is not part of this model.
- FaceDetector.Nms: scores are exact reals. The comparator's NaN case (`partial_cmp` falling back to `Equal`) is not modelled. `sort_by` is the standard library's stable sort, specified by a stable insertion sort and written back into the array at once.
- FaceDetector.GenerateAnchors: anchor entries are exact rationals rather than `f32`. Each cell, row and level is collected separately and appended whole, which yields the same sequence as pushing one anchor at a time. The three source tables `min_boxes`, `feature_map_sizes` and `steps` are gathered into one list of levels.
- Network.GetIp: the interface list is a parameter. The panic of `get_if_addrs().unwrap()` and the `println!` at lib.rs:50 are not modelled.
- ml.rs, database.rs, device.rs, directory.rs, file.rs, config.rs, main.rs and the rest of lib.rs are not part of this model. The same goes for the user interface and the build scripts: ONNX inference, SQLite, the file system and Tauri command plumbing.
