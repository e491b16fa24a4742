# PAXE frames and the six-seven pair, verified

This project models two things that share one wire format, and proves what they promise.

**The PAXE frame layer** (`Codec`, `Sodium`, `KeyStores`, `StandardMode`, `DekMode`, `Stats`, `Sessions`, `SessionRuns`). A sender
seals a payload as a standard frame, under the key it shares with one peer, or as a fanout: the body is encrypted once
under a fresh key (the DEK) and that key is wrapped for each recipient. A receiver tests an ordered list of gates, then
opens one or two ciphertexts, and counts every drop under exactly one reason. `Provenance`, `Worlds` and `Delivery`
take whole runs of any number of nodes, under any assignment of keys, and prove that a frame is accepted exactly when
some node emitted it, byte for byte, to this receiver under the key they share.

**The six-seven pair** (`Utf8`, `Text`, `Kv`, `PeerCodec`, `Stomp`, `StompStream`, `Server`, `Nodes`). Two nodes keep
the odd and the even keys of one map, forward operations to each other in sealed datagrams, wait with a timeout, and
answer their clients. `Atomic`, `Pairs`, `PairProofs`, `PairRuns`, `PairFates` prove that every run over a network that loses,
delays, reorders and duplicates datagrams behaves as one atomic map, and `Requests` follows an operation from the
client's bytes to its reply. `Wires` and `WireOnce` join the two halves: whatever
bytes are handed to the nodes, the run is one of those runs.

How the model is built:

- Code that updates state is a class or a method (`KeyStore`, `Cells`, `Session`, `Store`, `Node`, `Reader`, the seal
  and open methods on arrays); each method equates the new state with a function of the old one, and the theorems about
  runs are about those functions.
- AES-256-GCM is an ideal authenticated cipher in the sense of RFC 5116, sections 2.1 and 2.2: `enc` is any function
  that is injective in the plaintext and adds 16 bytes; a log holds every encryption made; decryption succeeds exactly
  on what the log explains. Key, nonce and DEK draws are parameters. The one freshness assumption is that a fanout's
  DEK differs from the DEKs of earlier fanouts; nonces may repeat, and node keys may be shared by everyone.
- Clocks, socket outcomes, hash-map iteration order and the cutting of TCP streams are parameters of the events.

Where the code and its comments disagree, the model follows the code:

- A second `set_local_id` is RC_INVAL (src/ffi.rs:315-319), not PAXE_ERR (include/paxe.h:63-65).
- A channel is a u32 of which only 1-99 are refused (src/ffi.rs:113-120), not a u16 (include/paxe.h:95).
- `Plaintext` is also recorded inside both opens (src/standard.rs:351-354, src/dek.rs:338-341), not only at the gate
  (src/stats.rs:120-121).
- `standard::seal` promises an untouched buffer on every error (src/standard.rs:221); that is proved for its three
  typed refusals. A sodium failure comes after the prefix write and has no counterpart in the ideal cipher.
- MAX_FRAME_BYTES is called the longest frame accepted, so that a client cannot grow the server's memory without bound
  (src/bin/six-seven-server/stomp.rs:21-24). The limit is only tested after a piece that has no NUL, so a longer frame
  passes when its NUL arrives in the piece that crosses the limit: up to 16383 bytes with the 8192-byte pieces of the
  server's `BufReader` (`StompStream.ServerFrameLimits`). And `read_frame` calls itself past a record of heart-beat
  filler while it still owns that record's text, so depth and memory grow with the heart-beats sent before a frame
  (`StompStream.BeatsPileUp`); the bound holds exactly when there are none (`StompStream.HeldIsBoundedIffNoFiller`).

## Model

| member | source | states |
|---|---|---|
| `Codec.ParseSerialized` | src/codec.rs:264-292 | parsing a serialized prefix followed by anything gives back header, mode and epoch |
| `Codec.SerializeParsed` | src/codec.rs:264-292 | a prefix that parses is the serialization of what it parses to, so no two byte strings mean the same |
| `Codec.PrefixInjective` | src/codec.rs:284-292 | different headers or flags have different prefixes |
| `Codec.FlagsFromBits` | src/codec.rs:203-222 | reading the flags byte as an integer is the source's mask, bit and shift on its bits, for all 256 bytes, refusals included |
| `Codec.FlagsByteBits` | src/codec.rs:188-194 | writing it is the source's OR of mode bit, fixed pattern and shifted epoch |
| `Codec.PrefixLayout` | src/codec.rs:134-153 | the nine bytes are source, destination and channel, most significant byte first, and the flags |
| `Sodium.Decrypt` | src/sodium.rs:788-827 | decryption returns a plaintext if and only if that very call was logged; at most one plaintext fits |
| `Sodium.Aead.Encrypt` | src/sodium.rs:746-781 | writes exactly plaintext + 16 bytes at the given place, nothing else, and logs the call |
| `Sodium.Aead.Open` | src/sodium.rs:788-827 | success writes the logged plaintext; failure zeroes the would-be plaintext and leaves the rest |
| `KeyStores.KeyStore.Install` | src/keystore.rs:291-311 | the sorted container behaves as a plain map: one slot set, refused only for a new slot at 1024 entries |
| `KeyStores.KeyStore.Retire` | src/keystore.rs:376-381 | removes one slot and no other, and says whether it was there |
| `KeyStores.KeyStore.Clear` | src/keystore.rs:383-387 | no slot remains |
| `KeyStores.KeyStore.Get` | src/keystore.rs:316-338 | a range of one slot is the map's lookup |
| `KeyStores.KeyStore.GetCurrent` | src/keystore.rs:350-357 | the last entry of the peer's range is the highest epoch installed for that peer |
| `KeyStores.KeyStore.IsPeerKnown` | src/keystore.rs:364-370 | the peer's range is non-empty if and only if some epoch is installed |
| `KeyStores.RangeBackIsCurrent` | src/keystore.rs:350-357 | in a sorted container the back of a peer's range is that peer's unique maximum epoch |
| `KeyStores.CurrentIsUnique` | src/keystore.rs:343-357 | "current" determines the epoch |
| `Stats.MemoAdd` | src/stats.rs:464-480 | setting a bit of the 64-bit memo adds exactly that reason to the set it stands for |
| `Stats.Cells.ShouldLog` | src/stats.rs:464-480 | silent never, verbose always, log_once the first time; the mask stays a faithful set |
| `Stats.Cells.RecordReject` | src/stats.rs:414-425 | moves one counter by one, saturating, and writes a line as the policy decides |
| `Stats.Cells.SelectPolicy` | src/stats.rs:440-445 | entering log_once forgets what was logged; nothing else changes |
| `Stats.Cells.RejectSum` | src/stats.rs:311-317 | the saturating sum loop equals the minimum of 2^64-1 and the exact sum of the seven counters |
| `Stats.DropKeepsBalance` | src/stats.rs:302-317 | one reject and one rx_total keep the receive equation, saturation included |
| `Stats.FirstsAreDistinct` | src/stats.rs:464-480 | the lines of log_once are pairwise different and cover exactly the reasons dropped |
| `StandardMode.Seal` | src/standard.rs:248-313 | on the caller's buffer: the three typed refusals change nothing; success writes the frame into the first payload + 37 bytes and only there, and makes one encryption |
| `StandardMode.Open` | src/standard.rs:331-428 | the pure verdict decides; acceptance writes the payload, failed authentication zeroes its place, every other drop leaves the buffer alone; the counters move as the verdict says |
| `DekMode.Seal` | src/dek.rs:176-198 | the one-recipient call emits a standard frame or a typed refusal |
| `DekMode.SelectFanout` | src/dek.rs:219-240 | succeeds if and only if recipients are non-empty, distinct and known and the payload fits, picking each peer's highest epoch in the caller's order; otherwise the refusal due: no recipients, then size, then the first offending recipient |
| `DekMode.RefusalIsDetermined` | src/dek.rs:219-240 | at most one refusal is due, and none when the fanout can be served |
| `DekMode.BodyAadIsShared` | src/dek.rs:156-160 | the body's associated data are exactly what the prefixes of all its frames share: source, channel, and the flags byte without its epoch |
| `DekMode.SealFanoutCore` | src/dek.rs:242-300 | every frame is the envelope for its recipient followed by the one shared body; the encryptions made are exactly one body and one envelope each |
| `DekMode.SealFanout` | src/dek.rs:200-217 | all or nothing; a refusal is the one that is due, and no encryption was made |
| `DekMode.Open` | src/dek.rs:303-321 | the result and the one counter moved are those of the first failing gate |
| `DekMode.OpenDek` | src/dek.rs:325-414 | the DEK branch: size before address, then peer, epoch, envelope, body |
| `DekMode.FirstFailingAt` | src/dek.rs:303-352 | if gate k fails and all before it pass, the reported reason is that of gate k |
| `DekMode.NestedIsFirstFailing` | src/dek.rs:303-414 | the nested branches of the two opens compute the first failing gate of a table whose order depends on the mode |
| `DekMode.DispatchAvoidsUncountedArms` | src/standard.rs:340-400 | through the dispatch, with room for the frame, no arm without a reject reason is reachable |
| `Delivery.ReasonsExactly` | src/dek.rs:303-352 | the reason for every drop read off the raw bytes, with the gate order of each mode |
| `Provenance.EmittedOpens` | src/dek.rs:303-414 | whatever was emitted to a ring opens there to its payload, header, mode and epoch |
| `Provenance.StandardProvenance` | src/standard.rs:404-427 | a standard frame that authenticates is byte-identical to an emitted one |
| `Provenance.FannedProvenance` | src/dek.rs:354-414 | envelope and body together pin one emission |
| `Provenance.BodyOrigin` | src/dek.rs:392-414 | without any assumption on DEKs, a body that opens in a frame was sealed by that frame's source on that frame's channel |
| `Provenance.EnvelopeOrigin` | src/dek.rs:354-390 | a logged call with a 37-byte associated datum is an envelope, and that datum fixes prefix and body nonce |
| `Provenance.AcceptedIffEmitted` | src/dek.rs:303-414 | for every byte string and ring: accepted with these results if and only if it is such an emission |
| `Worlds.StepKeepsInv` | src/dek.rs:176-300 | every step of every node keeps log, emissions and acceptances in agreement |
| `Worlds.EveryAcceptanceIsGenuine` | src/dek.rs:242-414 | in every run every accepted frame is byte-identical to one emitted earlier by a node whose id is the header's source, addressed to this node, with that payload, channel, mode and epoch |
| `Worlds.VerdictInEveryRun` | src/dek.rs:303-414 | in every reachable state the verdict on any bytes is fixed by what was emitted |
| `Delivery.EmittedOpensEverAfter` | src/dek.rs:303-414 | an emitted frame opens at any later moment wherever its key is held |
| `Delivery.FanoutDelivers` | src/dek.rs:200-300 | frames in caller order, under each peer's highest epoch, each payload + 97 bytes, all equal from byte 69 on, each opening at its recipient |
| `Delivery.ModesNeverMeet` | src/dek.rs:156-172 | a standard frame and a fanout frame never share an AEAD call or a byte string, even under one key |
| `Delivery.EnvelopeFixesBody` | src/dek.rs:374-403 | two accepted frames that agree on envelope, body nonce and body tag are one frame |
| `Delivery.NoRedirect` | src/dek.rs:338-341 | a frame taken to another node is dropped there whatever keys that node holds |
| `Delivery.CoverKeptIffOrderly` | src/keystore.rs:291-387 | in a world where the receiver can open whatever the sender can seal for it, a step of any node keeps that so if and only if it installs at the receiver first, retires there last, with one key on both sides, and neither node leaves |
| `Delivery.RotationNeverBreaksTheLink` | src/keystore.rs:291-387 | after any list of such steps, by any nodes, from any world of a run, every frame the sender then emits to the receiver, alone or in a fanout, opens there to its payload |
| `Delivery.MissingEpochDrops` | src/dek.rs:343-352 | a frame under an epoch the receiver lacks is dropped as no-epoch or no-peer |
| `Sessions.Session.SetLocalIdCall` | src/ffi.rs:305-329 | sets the identity once; a second call is refused and changes only the last error |
| `Sessions.Session.KeystoreSetCall` | src/ffi.rs:385-430 | argument checks in order, then install |
| `Sessions.Session.KeystoreRetireCall` | src/ffi.rs:436-460 | argument checks in order, then retire, telling absent from removed |
| `Sessions.Session.KeystoreClearCall` | src/ffi.rs:466-475 | drops every key and keeps identity, counters and last error |
| `Sessions.Session.SealCall` | src/ffi.rs:495-570 | seals under the newest epoch into the caller's buffer and counts exactly what was sealed or oversize; encrypts once when arguments and key are good, even if the frame then does not fit, and otherwise not at all |
| `Sessions.Session.OpenCall` | src/ffi.rs:584-660 | one opaque drop code, counted once; an unconfigured receiver and a short buffer are not counted |
| `Sessions.Session.FrameForUsCall` | src/ffi.rs:693-728 | verdict 1 counts nothing, verdict 0 of a configured receiver counts one plaintext drop |
| `Sessions.Session.PolicySetCall` | src/ffi.rs:765-784 | a known policy is entered, an unknown one changes only the last error |
| `Sessions.Session.ShutdownCall` | src/ffi.rs:355-372 | keys, identity, last error and memo go; counters stay |
| `Sessions.EveryRunBalances` | src/ffi.rs:549-568 | after every call of every run rx_total = min(2^64-1, rx_ok + rejects) and tx_total = min(2^64-1, standard + dek) |
| `Sessions.FreshRunsBalance` | src/stats.rs:302-317 | in particular from a fresh process |
| `Sessions.CountersNeverDecrease` | src/ffi.rs:355-372 | no call of any run lowers a counter, shutdown included |
| `Sessions.DropsSayNothing` | src/ffi.rs:605-660 | a drop writes neither last error, keys nor output |
| `Sessions.GatedDatagramsCountOnce` | src/ffi.rs:693-728 | gate then open counts each datagram exactly once: plaintext at the gate, received if it opens, else under the first failing test; after verdict 1 open never reports plaintext, and too-short only for a DEK frame under 97 bytes |
| `Sessions.LogOnceWindow` | src/stats.rs:440-480 | between a memo reset and the next policy change or shutdown, the lines written are one per distinct reason dropped, in order of first occurrence |
| `SessionRuns.OpenReportsIffEmitted` | src/ffi.rs:619-659 | an open call reports a payload, source, channel and mode if and only if this very frame was emitted to this node with that payload, by that source, on that channel, in that mode, and the payload fits |
| `SessionRuns.SealThenOpen` | src/ffi.rs:540-568 | the frame of a successful seal call, opened by the destination's session under the same key, gives the payload and names sender and channel |
| `SessionRuns.ConfiguringCalls` | src/ffi.rs:305-460 | set_local_id, keystore_set and keystore_retire succeed exactly on these argument ranges and states, and then change exactly this; a failing call keeps identity and keys |
| `SessionRuns.SealingCalls` | src/ffi.rs:495-568 | seal succeeds if and only if destination, channel, size, peer and room allow it |
| `SessionRuns.ShutdownForgets` | src/ffi.rs:355-372 | after shutdown no call yields a frame or a payload until an identity is set again; counters, policy and lines stay |
| `SessionRuns.EveryCounterCounts` | src/stats.rs:374-425 | in every run each counter is the number of calls that received, refused for that reason, sealed in that mode or were oversize, up to saturation |
| `Utf8.DecodeIff` | src/bin/six-seven-server/main.rs:525-528 | bytes decode to a text if and only if they are its encoding |
| `Text.ParsePrinted` | src/bin/six-seven-server/peer.rs:30-34 | a printed u64 parses to itself |
| `Text.ParsePadded` | src/bin/six-seven-server/peer.rs:30-34 | a plus sign and leading zeros do not change the number read |
| `Text.ParseRefuses` | src/bin/six-seven-server/peer.rs:30-34 | exactly the empty, the non-decimal and the too large texts are refused |
| `Text.TrimBetween` | src/bin/six-seven-server/kv.rs:87-120 | trimming takes off the whitespace around a text and nothing else |
| `Text.DecimalShortest` | src/bin/six-seven-server/kv.rs:87-120 | canonical decimal is no longer than any digits with that value |
| `Kv.ParsedPutFits` | src/bin/six-seven-server/kv.rs:87-120 | an accepted PUT has at most 1018 bytes of value and 1019 with its re-printed key |
| `Kv.VerbsExactly` | src/bin/six-seven-server/kv.rs:87-120 | GET, RM or DEL, PUT or SET, in any mixture of cases, and no other word |
| `Kv.ParseKeyed` | src/bin/six-seven-server/kv.rs:87-120 | a GET or RM with any whitespace around its words is that operation on that key |
| `Kv.ParseWrite` | src/bin/six-seven-server/kv.rs:87-120 | a PUT writes whatever follows the one whitespace after its key, verbatim, if and only if the request is at most 1024 bytes |
| `Kv.Store.ExecuteOp` | src/bin/six-seven-server/kv.rs:135-158 | the store's update and reply are those of the map operation, with the ceiling for new keys only |
| `PeerCodec.ReadPrinted` | src/bin/six-seven-server/peer.rs:36-104 | decoding undoes encoding for every id, operation and reply, whatever the value holds |
| `PeerCodec.ParsersAgree` | src/bin/six-seven-server/kv.rs:87-120 | an operation's text means the same to client parser and peer parser, if and only if it is not a PUT beyond 1024 bytes |
| `PeerCodec.MessagesAreSmall` | src/bin/six-seven-server/peer.rs:37-57 | a message of a parsed operation or a stored value is at most 1049 bytes |
| `Stomp.Escape` | src/bin/six-seven-server/stomp.rs:140-152 | the loop computes the character-wise escape |
| `Stomp.Unescape` | src/bin/six-seven-server/stomp.rs:154-177 | the loop computes the recursive unescape, dangling and undefined escapes included |
| `Stomp.UnescapeEscaped` | src/bin/six-seven-server/stomp.rs:140-177 | unescape after escape is the identity on all strings |
| `Stomp.UnescapeKeepsTheRest` | src/bin/six-seven-server/stomp.rs:162-174 | undefined escapes and a dangling backslash are kept as they are |
| `Stomp.EncodeFrame` | src/bin/six-seven-server/stomp.rs:41-56 | the header loop builds the frame's text and its NUL |
| `Stomp.ParseHeader` | src/bin/six-seven-server/stomp.rs:123-131 | a line gives one unescaped header, or none if blank or without a colon |
| `Stomp.ParseFrame` | src/bin/six-seven-server/stomp.rs:109-137 | the line loop computes command, headers and body |
| `Stomp.GoodFramesReadBack` | src/bin/six-seven-server/stomp.rs:41-137 | past any filler a frame with a good command reads back as itself |
| `Stomp.ReadFramesAreGood` | src/bin/six-seven-server/stomp.rs:102-137 | every frame read from any NUL-free record has a good command and no NUL |
| `Stomp.ReadsBackIffGood` | src/bin/six-seven-server/stomp.rs:41-137 | a frame reads back as itself if and only if its command is non-empty, one line, without edge CR, and no part holds NUL |
| `StompStream.ReadRecord` | src/bin/six-seven-server/stomp.rs:66-100 | the loop over buffered pieces gathers a record, runs out, or overruns, and consumes exactly that |
| `StompStream.ReadFrame` | src/bin/six-seven-server/stomp.rs:63-138 | one frame, a clean end, or one of three errors; reading past filler terminates |
| `StompStream.ReadConnection` | src/bin/six-seven-server/main.rs:276-293 | the frames of a connection in order, until it ends or breaks |
| `StompStream.GatherMeansRecord` | src/bin/six-seven-server/stomp.rs:66-100 | for every cut of the stream: the bytes up to the next NUL, or all of an unfinished rest; overrun if and only if some piece boundary lies past the limit with no NUL seen |
| `StompStream.ReadUnderEveryCutIff` | src/bin/six-seven-server/stomp.rs:82-99 | cut into pieces of at most `cap` bytes, a record is read however it is cut if and only if it is at most 8192 bytes |
| `StompStream.ReadUnderSomeCutIff` | src/bin/six-seven-server/stomp.rs:82-99 | some such cut is read if and only if the record is shorter than 8192 + `cap` bytes |
| `StompStream.ServerFrameLimits` | src/bin/six-seven-server/main.rs:276-278 | with the 8192-byte reader of the server: always read up to 8192 bytes, sometimes up to 16383, never beyond |
| `StompStream.MemoryOfOneRecord` | src/bin/six-seven-server/stomp.rs:66-100 | one activation holds less than the limit and one piece of a finished record, at most the limit of an unfinished one, and notices an overrun within one piece |
| `StompStream.BeatsPileUp` | src/bin/six-seven-server/stomp.rs:102-107 | `k` heart-beats before the frame make the call `k` activations deeper and keep all their bytes, for every `k` |
| `StompStream.HeldIsBoundedIffNoFiller` | src/bin/six-seven-server/stomp.rs:21-24 | a call that reads past `k` records of filler is held within the limit and one piece, for every stream, if and only if `k` is zero |
| `StompStream.EncodedFramesReadBack` | src/bin/six-seven-server/stomp.rs:41-138 | for any list of good frames with heart-beats between them, the concatenated encodings read back as exactly those frames under every cut |
| `Server.EveryEventConserves` | src/bin/six-seven-server/main.rs:339-387 | SENDs handled = replies made + pending + dropped with a departed client, kept by every event |
| `Server.EveryRunConserves` | src/bin/six-seven-server/main.rs:440-484 | and so by every run, whatever the peer says |
| `Server.TickSettlesTheDue` | src/bin/six-seven-server/main.rs:367-388 | after a tick nothing overdue is pending, nothing else is lost, each due request is answered once on its connection, in any iteration order |
| `Nodes.Node.OnUp` | src/bin/six-seven-server/main.rs:336-338 | the client is listed and nothing else changes |
| `Nodes.Node.OnDown` | src/bin/six-seven-server/main.rs:339-344 | the client and its pending entries go, and no others |
| `Nodes.Node.OnClientFrame` | src/bin/six-seven-server/main.rs:393-498 | state, replies, datagrams and encryptions are those of the client event |
| `Nodes.Node.ForwardOp` | src/bin/six-seven-server/main.rs:468-484 | a new id is minted; the client waits, or is told the send failed |
| `Nodes.Node.SendToPeer` | src/bin/six-seven-server/main.rs:564-581 | the datagram is the standard frame of the message to the peer under the link key |
| `Nodes.Node.OnDatagram` | src/bin/six-seven-server/main.rs:501-562 | bytes that do not open, are not the peer's, or do not decode do nothing; others act as their message |
| `Nodes.Node.OnTick` | src/bin/six-seven-server/main.rs:367-388 | the collect-then-remove loop is the tick event for the order it walked |
| `Atomic.HomeExecutionIsAtomic` | src/bin/six-seven-server/kv.rs:135-158 | executing at a key's home equals applying to the merged map, answer and map after |
| `PairProofs.StepKeepsInv` | src/bin/six-seven-server/main.rs:339-562 | every step of either node or the network keeps the pair's invariant |
| `PairRuns.EveryRunIsOneAtomicMap` | src/bin/six-seven-server/main.rs:463-484 | in every reachable state the merged stores are the effects applied one at a time, each answering as the whole map did then, each of a request already made |
| `PairRuns.EveryAnswerIsGenuine` | src/bin/six-seven-server/main.rs:534-561 | every answer goes to the connection that asked; one relayed from execution is the map's answer to that operation at a moment between request and answer; none is answered twice; duplicates included |
| `PairRuns.NoFalsePromise` | src/bin/six-seven-server/main.rs:367-388 | in every run a client is told of a value, of success or of absence only if its operation took effect and the one map answered so; timeouts and failed sends are refusals |
| `PairRuns.LocalAnswers` | src/bin/six-seven-server/main.rs:339-484 | the answers the history gains from an event are the reply calls it makes for operations, same connection and reply |
| `PairRuns.PeerAnswers` | src/bin/six-seven-server/main.rs:553-560 | likewise for a datagram from the peer |
| `PairRuns.IdsNeverCollide` | src/bin/six-seven-server/main.rs:470-484 | different ids name different requests, and a pending id is waited on by the connection given it |
| `PairRuns.AtMostOnce` | src/bin/six-seven-server/main.rs:534-551 | on a network that delivers each message at most once every request takes effect at most once |
| `PairFates.EveryRequestHasOneFate` | src/bin/six-seven-server/main.rs:339-387 | in every run each client operation is answered, pending at its node, or dropped with its client, and exactly one of these; one on a key of its own node is answered at once |
| `PairFates.SettledStays` | src/bin/six-seven-server/main.rs:470-484 | an id once no longer pending is never pending again |
| `PairFates.LateAnswersChangeNothing` | src/bin/six-seven-server/main.rs:553-560 | at every later moment of a run, a response to a request that was answered, timed out, or lost its client leaves the whole pair unchanged |
| `Requests.FrameReading` | src/bin/six-seven-server/main.rs:405-498 | how a frame is read, by spelling and parse alone |
| `Requests.HomeRequestAnswered` | src/bin/six-seven-server/main.rs:456-466 | a SEND that parses to an operation on the node's own key is executed on the one map and answered from it, with its receipt |
| `Requests.AwayRequestForwarded` | src/bin/six-seven-server/main.rs:468-484 | one on the other node's key is put on the network whole under a new id and waited on for five seconds with its receipt, or refused at once if the send fails |
| `Requests.OtherFramesRequestNothing` | src/bin/six-seven-server/main.rs:440-462 | SIZE is answered with the node's key count, an unparsable SEND with the parser's refusal, and nothing else is answered; none touches store, network or table |
| `Requests.TextRequestsOp` | src/bin/six-seven-server/kv.rs:87-120 | a SEND of the text of an operation requests that operation |
| `Requests.DeliveredRequestIsServed` | src/bin/six-seven-server/main.rs:534-551 | delivering a request executes it on the one map and puts the map's answer on the network |
| `Requests.DeliveredResponseIsRelayed` | src/bin/six-seven-server/main.rs:553-560 | delivering an awaited response makes one reply call, to the connection and with the receipt noted with the id |
| `Requests.NoteStays` | src/bin/six-seven-server/main.rs:477-484 | while an id is awaited, what was noted with it does not change, through any run |
| `Requests.RoundTrip` | src/bin/six-seven-server/main.rs:463-561 | from the client's frame to its reply through any run: the reply is what the one map answered when the request was delivered, once, to that connection, with that receipt |
| `Requests.FirstHeader` | src/bin/six-seven-server/stomp.rs:33-38 | the value of the first header of that name |
| `Requests.SentTextIsRequested` | src/bin/six-seven-server/main.rs:276-293 | however a client's bytes arrive, each SEND of an operation's text is read as a request for that operation |
| `Requests.ClientsAreTheConnected` | src/bin/six-seven-server/main.rs:336-344 | in every run the connected clients are those whose last arrival, departure or DISCONNECT was an arrival |
| `PairRuns.EveryRunPlaces` | src/bin/six-seven-server/kv.rs:41-48 | each resident key is at its parity owner, the stores are disjoint and within the ceiling, in every reachable state |
| `PairRuns.EveryValueIsSmall` | src/bin/six-seven-server/kv.rs:87-115 | stored values are at most 1018 bytes |
| `PairRuns.EveryMessageIsSmall` | src/bin/six-seven-server/main.rs:564-581 | messages are at most 1049 bytes and datagrams at most 1086 |
| `PairRuns.EveryReplyFits` | src/bin/six-seven-server/main.rs:548-551 | no reply to a forwarded request is ever refused as oversize |
| `PairRuns.ForwardsAlwaysFit` | src/bin/six-seven-server/main.rs:470-476 | no forwarded request is ever refused as oversize |
| `Wires.ReceivedIffSaid` | src/bin/six-seven-server/main.rs:515-535 | for any bytes: a node understands a message if and only if they are its peer's sealing of that message |
| `Wires.StepRefines` | src/bin/six-seven-server/main.rs:501-581 | handing any bytes to a node is no step, or the arrival of a message its peer once sealed |
| `Wires.EveryWireRunRefines` | src/bin/six-seven-server/main.rs:339-581 | every run under arbitrary injected bytes goes through the states and answers of a run of the pair |
| `Wires.NothingIsForged` | src/bin/six-seven-server/main.rs:339-581 | so from the start the stores are one atomic map changed by requested operations only, and every answer is genuine |
| `WireOnce.SameBytesSamePacket` | src/bin/six-seven-server/main.rs:564-581 | a datagram determines its sender and its message |
| `WireOnce.AtMostOnceOnTheWire` | src/bin/six-seven-server/main.rs:501-581 | if no datagram reaches its addressee more often than it was sent, every request took effect at most once, whatever else was handed to the nodes |

## Left out

- libsodium itself, guarded memory, page locking, erasure and core-dump limits: foreign code and operating system state; an `Internal` decryption result, which no logged call produces, is not modelled.
- Randomness: nonce collision probability and the quality of draws.
- Pointer checks of the C interface, borrow conflicts of its thread-locals, and the calls that only read (statistics, last error, version, sizes).
- Last-error and reply wording where it quotes its input: `Sessions` keeps which complaint was raised; `Kv.ParseOp` and the failed-send reply use one fixed text each.
- Sockets, threads, channels, argument and hex key parsing, stderr: their effects are events.
- Frames written to clients (MESSAGE, CONNECTED, RECEIPT, ERROR) and failed writes: `Server` ends at the call of `reply_to_client` and the client's removal. CONNECT, SUBSCRIBE and unknown commands change no state.
- Read errors of a TCP stream other than its end.
- Correlation id overflow and node restart: a node is not asked to mint an id beyond 2^64-1, and ids start again after a restart, which is not modelled.
- STOMP frames with CRLF line ends and undefined escapes are read as the code reads them, but no round trip is claimed; heart-beat negotiation and receipts are not modelled.
- PairRuns.AtMostOnce: for networks that do not duplicate datagrams; a replayed request executes again, and the code does not promise otherwise (README.md:32).
- Deterministic vector generators, build scripts and known-answer tests.
