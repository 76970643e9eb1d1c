# Verification model of the Baichuan camera proxy

The proxy talks to battery and mains cameras over the Baichuan protocol and publishes their media over RTSP.
This project models the parts of it where bytes, packets and clocks can go wrong, in Dafny, and proves what the
rest of the program relies on. Each module follows one component:

- `Bytes`: machine bytes and words, little-endian layout, lists of chunks.
- `UdpChecksum`, `UdpPacket`: the datagrams of the P2P transport and their checksum.
- `UidSession`: one end of the reliable P2P transport, as a class whose methods are proved against functions.
- `UidNetwork`: two such ends over a network that loses, duplicates and reorders datagrams, as a state machine in
  which every critical section is a step, and its invariant. The steps are the functions the class is proved against.
- `UidDelivery`, `UidRuns`, `UidRecovery`, `UidOverflow`: what follows over all runs. Safety; runs and what one session
  can do on its own; recovery from loss; what the limit on the receive buffer counts.
- `Cipher`, `Framing`: the message ciphers and the framing of the control connection.
- `EndToEnd`: framing on top of the P2P transport.
- `BcMedia`, `MediaUnits`: the incremental parser of the bcmedia stream and the serializer of talk blocks; the layout
  of the units, written down on its own, and the parser's exact agreement with it.
- `Preview`: best-effort fan-out of messages interleaved with a preview consumer.
- `AnnexB`: NAL splitting, ordering, parameter sets.
- `MediaClock`, `RtpClock`, `LiveEdge`: from 32-bit camera time to RTP timestamps, and dropping a backlog.
- `Resampler`, `Adpcm`, `TalkPipeline`: talk audio from decoded samples to the blocks the camera plays.
- `StateQueue`: the ordered callback queue of a device.

Code that updates fields or buffers is modelled by classes and methods with loops; each is proved equal to a
function on values, and the theorems are about those functions. Formats and tables are pinned by layouts, inverses
and known values that do not mention the functions. Machine integers are bounded types with explicit
wrap-around where the code can reach the bounds. `dafny verify dfyconfig.toml` checks the whole project.

What the proofs brought to light about the code:

- The limit of 1024 buffered packets is meant to notice missing ones, but a second copy of a delivered packet counts too
  and is never removed. A data packet ends the reader exactly if second copies and packets behind a gap are more than
  1024 together (`UidOverflow.WhenTheLimitTrips`), so a session in which nothing is missing ends after 1025 distinct
  second copies, and `UidOverflow.HealthySessionCanTrip` gives a run from the start in which it does. Delivery order
  does not suffer.
- With the write loops idle and the read loops up, recovery is possible exactly if nothing is unacknowledged, or a
  28-byte acknowledgement fits the datagram buffer and the peer's receive buffer is within the limit or the peer misses
  nothing (`UidRecovery.RecoveryExactly`). How many packets are unacknowledged does not matter: those that arrive in
  order need no room. Room for all of them together is enough for any order of arrival (`UidRecovery.Recovery`).
- A complete bcmedia ADPCM unit with the right marker and a size field below 4 makes `parseMediaPacket` slice
  `buf[12:12+blockSize]` with the upper bound below the lower one, which panics. Exactly these units do
  (`BcMedia.PanicsExactly`), wherever the stream is cut (`BcMedia.StreamPanicsExactly`); `BcMedia.SizeZeroPanics` has
  one. The serializer never writes such a unit.
- `serializeTalkADPCMBlock` truncates its size field: a block is read back exactly up to 65531 bytes, and a longer one
  is not (`BcMedia.TalkBlockRoundTrip`). The pipeline stays far below (`TalkPipeline.BlockSizes`).
- The timeline carries its correction to later packets exactly when the time was not clamped at zero
  (`MediaClock.CorrectionIsCarried`).
- The RTP guard changes the distance between neighbouring stamps that move forward in just two cases: the first was a
  little behind and got nudged one tick past its predecessor (100, 50, 110 go out as 100, 101, 110), or the second
  equals the last stamp sent and counts as a repetition (1000000, 0, 1000001 go out as 1000000, 1000001, 1000002). One
  tick is always kept (`RtpClock.StreamKeepsSpacing`, `RtpClock.NudgeChangesSpacing`,
  `RtpClock.CollisionChangesSpacing`).
- Four bytes is the exact limit of the checksum's burst detection (`UdpChecksum.DetectsWindow`,
  `UdpChecksum.FiveBytesCanCollide`).
- `SplitAnnexB` does not see a three-byte start code in the last three bytes, so the exact condition for a last unit is
  slightly weaker than for the others (`AnnexB.SplitUndoesJoin`).
- The fallbacks of `decryptXMLAuto` cannot mistake a plain text for a BC-encrypted one or the other way round, whatever
  the key offset (`Cipher.BcNeverLooksLikeXml`); only AES can mislead them, by a ciphertext or a decryption that
  happens to look like XML (`Cipher.AutoReadsExactly`).
- With an odd block length the talk pipeline never writes a block (`TalkPipeline.Pipeline.WriteBlock`).

## Model

| member | source | states |
|---|---|---|
| UdpChecksum.UdpCrc32 | pkg/baichuan/udp.go:188-203 | the nested loops compute the recursive bit-level checksum |
| UdpChecksum.CrcBitsInjective | pkg/baichuan/udp.go:194-199 | any number of bit steps loses no information about the state |
| UdpChecksum.CrcInjectiveInState | pkg/baichuan/udp.go:191-201 | for a fixed payload different states lead to different sums |
| UdpChecksum.CrcOfWindow | pkg/baichuan/udp.go:191-201 | up to four bytes enter the state like one 32-bit word followed by plain bit steps |
| UdpChecksum.WindowInjective | pkg/baichuan/udp.go:191-201 | from one state, two windows of at most four bytes lead to the same state only if equal |
| UdpChecksum.DetectsWindow | pkg/baichuan/udp.go:188-203 | payloads that differ only inside a window of at most four bytes never share a checksum |
| UdpChecksum.FiveBytesCanCollide | pkg/baichuan/udp.go:188-203 | four is the limit: in any surroundings two different five-byte windows collide |
| UdpChecksum.KnownChecksum | pkg/baichuan/udp.go:189-199 | the polynomial, by its effect: the checksum of the byte 0x80 is 0xEDB88320 |
| UdpPacket.MarshalUdpPacket | pkg/baichuan/udp.go:91-128 | the buffer filled in place holds exactly the packet's layout |
| UdpPacket.MarshalDiscovery | pkg/baichuan/udp.go:93-102 | header words at their offsets, checksum of the payload, then the payload |
| UdpPacket.MarshalAck | pkg/baichuan/udp.go:104-114 | 28-byte header with the cumulative ID, then the bitmap |
| UdpPacket.MarshalData | pkg/baichuan/udp.go:116-124 | 20-byte header with the packet ID, then the chunk |
| UdpPacket.RoundTrip | pkg/baichuan/udp.go:91-186 | every marshalled packet is parsed back as itself, whatever bytes follow it |
| UdpPacket.RoundTripExact | pkg/baichuan/udp.go:91-186 | the same for a datagram that holds the packet alone |
| UdpPacket.TruncatedIsRejected | pkg/baichuan/udp.go:130-186 | a packet cut anywhere before its end is an error, never another packet |
| UdpPacket.CorruptedDiscoveryIsRejected | pkg/baichuan/udp.go:136-149 | a discovery payload damaged inside a four-byte window fails the checksum test |
| UdpPacket.ParsesExactly | pkg/baichuan/udp.go:130-186 | a datagram is parsed as a packet exactly if magic number, IDs, length, checksum and payload are at their offsets |
| UdpPacket.EncodedIsLaidOut | pkg/baichuan/udp.go:91-128 | every marshalled packet has this layout, the unused words as in the source, and nothing behind it |
| UidSession.DrainMeaning | pkg/baichuan/udp.go:205-225 | what is drained is the longest gapless run from the awaited ID, the rest stays untouched |
| UidSession.ContiguousPayloads | pkg/baichuan/udp.go:205-225 | the loop drains that run and advances the consumed ID to its end |
| UidSession.ComputeAckWindow | pkg/baichuan/udp.go:227-268 | the acknowledgement reaches the end of the buffered run, its bitmap says for each later ID, up to 200, whether it is held |
| UidSession.AckWindowMeaning | pkg/baichuan/udp.go:227-268 | for any buffer: the cumulative ID ends the gapless run; behind it one byte per ID says whether it is held, for all held IDs up to 200 further and no others, never more than 200 bytes |
| UidSession.WalkPastRun | pkg/baichuan/udp.go:232-238 | the cumulative ID is the end of the run that could be drained |
| UidSession.FillBitmap | pkg/baichuan/udp.go:258-265 | one entry per ID after the cumulative one, set exactly for buffered IDs |
| UidSession.LastKey | pkg/baichuan/udp.go:240-248 | the last of the sorted keys is the largest buffered ID |
| UidSession.PruneSent | pkg/baichuan/uid.go:428-438 | what is left of the sent packets are those the acknowledgement does not cover |
| UidSession.OverflowEndsReader | pkg/baichuan/uid.go:446-451 | a data packet ends the reader exactly if more than 1024 packets are buffered |
| UidSession.FirstCopyWins | pkg/baichuan/uid.go:452-454 | a second copy of a buffered packet changes nothing, whatever it carries |
| UidSession.OverflowEndsWriter | pkg/baichuan/uid.go:487-494 | the writer gives up exactly with more than 1024 packets unacknowledged, else numbers the chunk |
| UidSession.Enqueue | pkg/baichuan/uid.go:326-342 | what is queued is the written part of the buffer, in chunks of the payload limit |
| UidSession.ChunksAreFull | pkg/baichuan/uid.go:326-342 | all chunks but the last have the full payload size |
| UidSession.Session.Write | pkg/baichuan/uid.go:320-345 | the queue grows by exactly the bytes reported as written, also when the session closes half way |
| UidSession.Session.Read | pkg/baichuan/uid.go:294-318 | bytes are handed out in stream order, none lost or repeated, none only if none are there |
| UidSession.Session.FillBuffer | pkg/baichuan/uid.go:298-315 | chunks are fetched until the buffer holds something or none is left |
| UidSession.Session.HandOut | pkg/baichuan/uid.go:317 | as many bytes as asked for, or all there are, leave the buffer from the front |
| UidSession.Session.HandleAck | pkg/baichuan/uid.go:423-439 | the ack branch removes the covered packets and nothing else |
| UidSession.Session.HandleData | pkg/baichuan/uid.go:441-465 | the data branch: first copy wins, the run is drained, more than 1024 buffered packets end the reader |
| UidSession.Session.TakeIn | pkg/baichuan/uid.go:452-456 | first copy wins, then the gapless run is drained |
| UidSession.Session.HandleDatagram | pkg/baichuan/uid.go:406-466 | a datagram that is malformed or carries another connection ID changes nothing |
| UidSession.Session.TakeFromQueue | pkg/baichuan/uid.go:483-496 | the next chunk gets the next packet ID, or the writer ends with more than 1024 unacknowledged packets |
| UidSession.Session.EndWriter | pkg/baichuan/uid.go:487-491 | the chunk taken is dropped and the write loop ends |
| UidSession.Session.NumberChunk | pkg/baichuan/uid.go:492-494 | the chunk taken gets the next ID, which no recorded packet has yet |
| UidSession.Session.MarshalChunk | pkg/baichuan/uid.go:498-511 | the numbered chunk goes out as a data packet before it is on record |
| UidSession.Session.RecordSent | pkg/baichuan/uid.go:513-515 | the packet is put on record under its ID |
| UidSession.Session.Retransmit | pkg/baichuan/uid.go:520-525 | the tick sends exactly the packets on record and changes none of them |
| UidSession.Session.Forward | pkg/baichuan/uid.go:458-464 | a drained chunk moves to the reader's queue, the stream stays the same |
| UidSession.Session.PrepareAck | pkg/baichuan/uid.go:527-532 | the tick acknowledges what has been received, nothing before the first delivery |
| UidSession.Session.SendAck | pkg/baichuan/uid.go:534-546 | the acknowledgement goes out under the peer's connection ID |
| UidNetwork.InitEstablishesInv | pkg/baichuan/uid.go:294-549 | two fresh sessions over an empty network satisfy the invariant |
| UidNetwork.DataArrives | pkg/baichuan/uid.go:388-444 | a data packet of the peer passes the receive buffer and the ID test unchanged |
| UidNetwork.AckArrives | pkg/baichuan/uid.go:388-426 | an acknowledgement arrives unchanged or, in too small a buffer, not at all |
| UidNetwork.NextKeepsInv | pkg/baichuan/uid.go:294-549 | every step of either session and of the network keeps the invariant |
| UidNetwork.ReachableInv | pkg/baichuan/uid.go:294-549 | the invariant holds in every reachable state |
| UidRuns.WriteIsARun | pkg/baichuan/uid.go:320-345 | what Write does is a run of the state machine: start, one chunk per turn, give up the rest |
| UidRuns.ReadIsARun | pkg/baichuan/uid.go:294-318 | what Read does is a run of it: fetch chunks until there is one that is not empty, hand out |
| UidRuns.SettleRun | pkg/baichuan/uid.go:294-464 | the read loop and the reader can always bring everything in order to the reader |
| UidDelivery.DeliveredIsPrefixOfWritten | pkg/baichuan/uid.go:294-515 | in every reachable state the bytes read are a prefix of the bytes written on the other side, chunk by chunk, none above mtu - 20 |
| UidDelivery.PrunedOnlyIfReached | pkg/baichuan/uid.go:423-439 | a packet leaves the sent packets only if the peer holds or has delivered it, however stale the acknowledgement |
| UidDelivery.EveryPacketAccountedFor | pkg/baichuan/uid.go:483-515 | every numbered packet is on record, in the writer's hand, or has reached the peer |
| UidDelivery.RunIsLater | pkg/baichuan/uid.go:376-549 | along any run what was numbered or has reached a session stays so |
| UidDelivery.TakenInMeansReached | pkg/baichuan/uid.go:441-456 | a data packet taken in by a reader that stays up has arrived for good |
| UidDelivery.RetransmitOffersAll | pkg/baichuan/uid.go:520-525 | a tick puts every unacknowledged packet back on the wire |
| UidDelivery.ReachedMeansOrdered | pkg/baichuan/udp.go:205-225 | when all packets below n have arrived, in any order, they are all in the stream: no gap can remain |
| UidDelivery.CatchesUpIfReaderLasts | pkg/baichuan/uid.go:441-525 | once the retransmitted packets are taken in by a read loop that lasts, the peer has everything numbered before, in order |
| UidDelivery.CaughtUpAckCoversAll | pkg/baichuan/udp.go:227-268 | the acknowledgement of a caught-up peer covers every packet below n, whatever the bitmap cap |
| UidDelivery.AckIsPruned | pkg/baichuan/uid.go:423-439 | that acknowledgement prunes all of them whenever it arrives |
| UidDelivery.ReportedIsPruned | pkg/baichuan/uid.go:423-439 | what the peer had received when it acknowledged, up to 200 IDs from the awaited one on, is off the record once that acknowledgement arrives: it is not sent again because of a gap before it |
| UidDelivery.RecoveryIfReaderLasts | pkg/baichuan/uid.go:423-549 | from any state with no send half done: retransmission, arrival in any order at a read loop that lasts, next acknowledgement, if it fits the datagram buffer; then nothing numbered before is unacknowledged and all of it is in the peer's stream |
| UidRecovery.ReaderLasts | pkg/baichuan/uid.go:441-456 | if what is buffered and what comes in are at most 1024 IDs together, the buffer limit does not end the read loop during the run |
| UidRecovery.RetransmissionCatchesUp | pkg/baichuan/uid.go:441-525 | with that room the peer has everything numbered before, in order, once the retransmitted packets are taken in |
| UidRecovery.Recovery | pkg/baichuan/uid.go:423-549 | with that room at the start: retransmission, arrival in any order with anything in between, next acknowledgement, if it fits; then nothing numbered before is unacknowledged and all of it is in the peer's stream |
| UidRecovery.RecoveryIsPossible | pkg/baichuan/uid.go:423-549 | with idle write loops, both read loops up, and the condition of RecoveryExactly, a run leaves nothing unacknowledged and everything numbered read by the peer |
| UidRecovery.AwaitedStaysUnacknowledged | pkg/baichuan/uid.go:441-456 | with the peer's buffer beyond its limit the packet it awaits stays unacknowledged, whatever happens |
| UidRecovery.ShortBufferKeepsRecord | pkg/baichuan/uid.go:388-439 | a datagram buffer below 28 bytes takes no acknowledgement, so nothing is ever pruned |
| UidRecovery.RecoveryExactly | pkg/baichuan/uid.go:423-549 | such a run exists exactly if nothing is unacknowledged, or the shortest acknowledgement fits and the peer's buffer is within its limit or the peer misses nothing |
| UidOverflow.StaleCopiesStay | pkg/baichuan/uid.go:447-455 | a second copy of a delivered packet is never removed from the receive buffer |
| UidOverflow.BufferIsSecondCopiesAndWaiting | pkg/baichuan/uid.go:441-456 | in every reachable state the buffer is the distinct second copies taken in so far and the packets behind a gap |
| UidOverflow.WhenTheLimitTrips | pkg/baichuan/uid.go:446-451 | in every reachable state the next data packet ends the reader exactly if these are more than 1024 together; with nothing missing, exactly after more than 1024 distinct second copies; after fewer, at least 1025 less their number do wait behind a gap |
| UidOverflow.ReplayRun | pkg/baichuan/uid.go:447-455 | receiving n delivered packets again, n up to 1025, is a run that fills the buffer with n entries and moves nothing |
| UidOverflow.LimitTripsWithNothingMissing | pkg/baichuan/uid.go:446-451 | from any invariant state with an empty buffer whose network still carries 1025 delivered packets, a run of receptions ends the reader with nothing missing |
| UidOverflow.HealthySessionCanTrip | pkg/baichuan/uid.go:446-451 | from fresh sessions a run without loss or stop ends the reader while it has everything that was numbered |
| Cipher.BcXor | pkg/baichuan/crypto.go:56-63 | the loop computes the BC stream cipher |
| Cipher.BcIsItsOwnInverse | pkg/baichuan/crypto.go:56-63 | applying it twice gives the buffer back |
| Cipher.UdpXor | pkg/baichuan/crypto.go:66-78 | the loops compute the discovery stream cipher with wrapping key words |
| Cipher.UdpIsItsOwnInverse | pkg/baichuan/crypto.go:66-78 | applying it twice gives the buffer back |
| Cipher.BcAt | pkg/baichuan/crypto.go:12-63 | each byte is masked with its key byte and the offset, the key written out |
| Cipher.UdpAt | pkg/baichuan/crypto.go:13-78 | each byte is masked with its byte of the shifted key words, lowest first, the key written out |
| Cipher.CfbRoundTrip | pkg/baichuan/crypto.go:139-156 | cipher feedback decryption undoes encryption for every block function and every length |
| Cipher.CfbBlocks | pkg/baichuan/crypto.go:139-156 | each 16 bytes are masked with the block function of the 16 bytes of ciphertext before them |
| Cipher.FirstFeedback | pkg/baichuan/crypto.go:24 | the first feedback block is the characters 0 to 9 and a to f |
| Cipher.IsXmlExactly | pkg/baichuan/crypto.go:135-137 | the prefix test passes exactly for blanks, tabs and line ends followed by the XML declaration |
| Cipher.CipherRoundTrip | pkg/baichuan/crypto.go:80-110 | in every mode, with or without a key, decryption undoes encryption |
| Cipher.AutoUndoesEncryption | pkg/baichuan/crypto.go:116-133 | automatic decryption gives the plaintext exactly if it is XML or nothing else tried looks like XML |
| Cipher.BcNeverLooksLikeXml | pkg/baichuan/crypto.go:121-137 | the BC encryption of an XML text never looks like one, for any offset and any leading blanks |
| Cipher.ForeignModeIsRead | pkg/baichuan/crypto.go:116-133 | a text sent plain or BC-encrypted is read under every session mode, exactly unless an AES session makes another text of it |
| Cipher.AesTextIsRead | pkg/baichuan/crypto.go:116-133 | an AES-encrypted text is read under every session mode, exactly unless its ciphertext passes for another text |
| Cipher.AutoReadsExactly | pkg/baichuan/crypto.go:116-133 | any part, sent in any mode and read in any other under the same key, is read back exactly if it survives: a text unless AES makes another text of it, anything else unless some try looks like a text |
| Cipher.SameSessionSurvives | pkg/baichuan/crypto.go:116-133 | a text survives whenever both sides are in the same mode |
| Framing.MarkedMeansAlive | pkg/baichuan/message.go:155-184 | a message number counts as binary exactly if it was flagged and used ever since without a pause above five minutes |
| Framing.MarkLeavesLiveOnes | pkg/baichuan/message.go:157-167 | after a mark exactly the numbers used within five minutes are left, with their times |
| Framing.HeaderReadsBack | pkg/baichuan/message.go:49-74 | every header field is read back from where it was written, for both header lengths |
| Framing.HeaderLayout | pkg/baichuan/message.go:209-231 | magic number, fields and payload offset at their places, in the 24 or 20 bytes of the class |
| Framing.RequestFields | pkg/baichuan/message.go:209-231 | what a request says in its header, the nonce request included |
| Framing.RequestParts | pkg/baichuan/message.go:186-202 | which parts of a request are encrypted and how, by class, flags and session |
| Framing.BadFramesFail | pkg/baichuan/message.go:76-97 | too long, short or badly divided frames fail, and what they use up of the stream |
| Framing.BadHeadersFail | pkg/baichuan/message.go:48-74 | short headers and foreign magic numbers fail, and what they use up of the stream |
| Framing.LoginSelectsCipher | pkg/baichuan/client.go:752-768 | after a login answer requests go plain, BC- or AES-encrypted by its code; other codes and messages change nothing |
| Framing.TextReadsBack | pkg/baichuan/message.go:188-202 | a part, also one forced to the BC cipher or decrypted after a negotiation, is read back exactly if it survives the cipher |
| Framing.TextsAreReadable | pkg/baichuan/message.go:48-236 | between two sides in the same cipher state a modern request made of texts is readable exactly if they agree whether its body is binary and the prefix of a binary one survives |
| Framing.RequestReadsBack | pkg/baichuan/message.go:48-149 | a request of any class, sent and read in any two modes, followed by anything, is read back as meant exactly if it fits, its extension can be told from its body, both sides agree on its kind and its parts survive; then exactly its bytes are consumed |
| Framing.EncryptedMediaIsRead | pkg/baichuan/message.go:102-134 | a binary message that announces n encrypted bytes, in its extension block or its text, whose first n bytes are encrypted and the others not, is read with its payload in plain |
| Framing.PlainMediaIsRead | pkg/baichuan/message.go:118-134 | without a key, or without an announced length that is positive and fits, a binary payload is read unchanged |
| Framing.StreamReadsBack | pkg/baichuan/message.go:48-236 | any number of requests on one connection, each sent in a mode of its own, are read back one by one at their boundaries exactly if each is readable in its turn |
| Framing.TextStreamReadsBack | pkg/baichuan/message.go:48-236 | a stream of modern requests made of texts and media, between two sides in one cipher state, is read back exactly if each binary body is announced, by its extension or by a number flagged before and used ever since without a pause above five minutes, and no other body is |
| Framing.Connection.MarkBinaryMsgNum | pkg/baichuan/message.go:157-167 | the number is marked now and every mark above the limit is gone |
| Framing.Connection.IsBinaryMsgNum | pkg/baichuan/message.go:169-184 | answers for the mark, refreshes a live one and removes a stale one |
| Framing.Connection.SetNegotiatedEncryption | pkg/baichuan/client.go:752-768 | the low byte of the login response selects the mode, unknown bytes change nothing |
| Framing.Connection.ReadRest | pkg/baichuan/message.go:76-100 | length limit, short body, negotiation before decryption, bad offset, in this order |
| Framing.Connection.Decode | pkg/baichuan/message.go:102-148 | extension and payload are decrypted as the flags, marks and encrypted prefix demand |
| Framing.Connection.Next | pkg/baichuan/message.go:48-149 | one message or error, and the bytes left on the transport |
| Framing.Connection.EncodeRequest | pkg/baichuan/message.go:186-236 | the packet filled in place is header, encrypted extension, encrypted body |
| Framing.Connection.PutHeader | pkg/baichuan/message.go:209-231 | all header fields at their offsets, the payload offset only in the classes that have one |
| EndToEnd.RequestsSurviveTheNetwork | pkg/baichuan/message.go:48-236 | over the P2P transport, whatever the network does, once the bytes of the first k requests are delivered these are read as meant exactly if each is readable in its turn |
| BcMedia.ConsumedBounds | pkg/baichuan/media.go:50-169 | an accepted packet takes at least 8 bytes and no more than are there |
| BcMedia.VerdictIsStable | pkg/baichuan/media.go:50-169 | a packet or an error found in a buffer is not changed by bytes that arrive later |
| BcMedia.FeedSplit | pkg/baichuan/media.go:30-48 | appending b after a gives what a gave and then what the leftover and b give |
| BcMedia.LeftoverIsSpent | pkg/baichuan/media.go:30-48 | the leftover yields nothing more, and a stream error stays |
| BcMedia.ChunkIndependence | pkg/baichuan/media.go:30-48 | packets, leftover and error do not depend on how the stream is cut |
| BcMedia.PanicsExactly | pkg/baichuan/media.go:99-117 | the block slice has its bounds out of order exactly for a complete ADPCM unit with the right marker and a size field below 4 |
| BcMedia.ErrorIsOfLeftover | pkg/baichuan/media.go:30-48 | the error of a buffer is that of what is left at the first unit that does not parse |
| BcMedia.StreamPanicsExactly | pkg/baichuan/media.go:30-48 | a stream, cut anywhere, panics exactly if such a unit comes first among those that do not parse |
| BcMedia.SizeZeroPanics | pkg/baichuan/media.go:112-116 | a unit of size 0 behind any talk blocks panics, wherever the stream is cut |
| BcMedia.MediaParser.Append | pkg/baichuan/media.go:30-48 | one call yields everything the buffer and the new data hold, in order, and keeps the leftover |
| BcMedia.SerializeTalkAdpcmBlock | pkg/baichuan/talk.go:369-381 | the buffer filled in place is header, block, zero padding to a multiple of eight |
| BcMedia.TalkBlockRoundTrip | pkg/baichuan/talk.go:369-381 | a serialized block followed by anything is parsed back exactly if it has at most 65531 bytes |
| BcMedia.TalkStreamRoundTrip | pkg/baichuan/media.go:99-117 | a stream of serialized blocks, cut anywhere, is parsed into those blocks with nothing left over |
| MediaUnits.UnitReadsBack | pkg/baichuan/media.go:50-169 | every info, video, AAC or ADPCM unit, written out byte by byte and followed by anything, is parsed as exactly what it says within the limits of 50 MiB and 1 MiB, and is an error beyond them |
| MediaUnits.StreamReadsBack | pkg/baichuan/media.go:30-48 | a stream of units of all kinds, cut anywhere, comes out as what they say; what follows the last one waits or fails |
| MediaUnits.AcceptedIsUnit | pkg/baichuan/media.go:50-169 | whatever the parser accepts begins with the bytes of such a unit and is what it says |
| MediaUnits.NeverWaitsLong | pkg/baichuan/media.go:50-169 | the parser never waits for more than the largest possible unit |
| MediaUnits.TalkUnitIsWritten | pkg/baichuan/talk.go:369-381 | a serialized talk block is such a unit, with its size twice, its sequence number, and zeros at the end |
| Preview.Dispatch | pkg/baichuan/client.go:189-197 | every subscriber with room gets the message, every other one counts exactly one drop |
| Preview.ParserNeverFedPastAHole | pkg/baichuan/client.go:570-608 | for every interleaving the payloads fed to the parser are a prefix of the matching messages dispatched |
| Preview.MatchingMeaning | pkg/baichuan/client.go:579-588 | of the messages exactly the binary ones of the stream with anything in them are fed, in order |
| Preview.PublishedIsPrefixOfGaplessStream | pkg/baichuan/client.go:590-618 | the packets handed on are a prefix of those the gapless stream parses into |
| Preview.WithoutLossNothingIsWithheld | pkg/baichuan/client.go:574-620 | while nothing is lost an idle consumer has handed on everything |
| Preview.EndsOnlyForCause | pkg/baichuan/client.go:189-197 | until it is stopped the consumer ends only for a counted loss or for data that does not parse; every message is taken, waits among at most 256, or is counted |
| AnnexB.SplitAnnexB | pkg/media/translator.go:41-75 | the scan with its skips returns the units between start codes, the whole buffer if there is none |
| AnnexB.NoneEmpty | pkg/media/translator.go:68-74 | no unit returned is empty |
| AnnexB.CleanMeansFoundBehind | pkg/media/translator.go:46-58 | the stated condition on a unit is exactly what keeps the scan from cutting it |
| AnnexB.SplitUndoesJoin | pkg/media/translator.go:41-85 | for any mix of start codes splitting undoes joining exactly if every unit meets that condition |
| AnnexB.EncoderUnitsSurvive | pkg/media/translator.go:41-85 | units as encoders make them (not empty, no 00 00 01, not ending in zero) always survive |
| AnnexB.LeadingBytesAreDropped | pkg/media/translator.go:41-75 | bytes before the first start code are dropped |
| AnnexB.NoCodeIsOneUnit | pkg/media/translator.go:64-67 | without a start code the whole buffer is one unit |
| AnnexB.Reorder | pkg/media/translator.go:120-133 | the loop puts the kept non-slices before the slices |
| AnnexB.ReorderIsStable | pkg/media/translator.go:218-231 | within the slices and within the other units the order does not change |
| AnnexB.ReorderPartitions | pkg/media/translator.go:120-133 | no kept unit is lost or added, no slice precedes another unit, doing it again changes nothing |
| AnnexB.ExtractH264Params | pkg/media/translator.go:136-153 | the last sequence and picture parameter set, or nothing |
| AnnexB.ExtractH265Params | pkg/media/translator.go:156-176 | the last video, sequence and picture parameter set, or nothing |
| AnnexB.LastOfMeaning | pkg/media/translator.go:136-176 | the parameter set extracted is in the list with no later one of its kind, or there is none |
| AnnexB.ExtractCommutesWithReorder | pkg/media/translator.go:120-176 | parameter sets are the same before and after reordering, for both codecs |
| AnnexB.FilterH265DecodableNals | pkg/media/translator.go:89-106 | the in-place compaction moves exactly the decodable units to the front, in order, and leaves the tail alone |
| AnnexB.FilterKeepsParameters | pkg/media/translator.go:89-106 | base-layer parameter sets survive the filter |
| AnnexB.AvcKinds | pkg/media/translator.go:204-231 | in H.264 a unit with header type 1 to 5 is a slice, any other kept before them |
| AnnexB.HevcKinds | pkg/media/translator.go:89-133 | in H.265 types 0 to 9 and 16 to 21 are slices; the filter passes exactly types below 48 of layer 0 |
| AnnexB.EveryUnitHasAHeader | pkg/media/translator.go:89-231 | every unit long enough has such a header, the others are dropped |
| AnnexB.FilterKeepsBaseLayer | pkg/media/translator.go:89-106 | of the units below type 48 exactly those of the base layer survive the filter, slices included |
| MediaClock.UnwrapIsNearest | pkg/bridge/stream_run.go:624-658 | no time with the same low 32 bits is closer to the highest time seen |
| MediaClock.UnwrapRecovers | pkg/bridge/stream_run.go:624-658 | a time within half a wrap of the highest one is recovered from its low 32 bits |
| MediaClock.TiesKeepTheHighWord | pkg/bridge/stream_run.go:624-658 | exactly half a wrap away the candidate with the high word of the highest time is taken |
| MediaClock.TrueClockRecovered | pkg/bridge/stream_run.go:507-526 | across any number of wraps the unwrapped clock is the true clock plus one constant shift |
| MediaClock.VideoAdvances | pkg/bridge/stream_run.go:461-485 | for any raw time the next frame is published 1 to 500000 microseconds later and the average stays in that range |
| MediaClock.CorrectionIsCarried | pkg/bridge/stream_run.go:471-497 | the new offset maps the raw time to the published one exactly if the time was not clamped at zero |
| MediaClock.AudioKeepsItsDistance | pkg/bridge/stream_run.go:487-497 | audio keeps its raw distance to the frame before it on the corrected timeline |
| MediaClock.TrustedDeltasPassThrough | pkg/bridge/stream_run.go:469-484 | a frame is published at its corrected time, and changes no correction, exactly if it is at a trusted distance |
| MediaClock.AverageMoves | pkg/bridge/stream_run.go:476-482 | a trusted distance enters the average with a tenth of its weight, the first one whole |
| MediaClock.GapsAreFilledAtPace | pkg/bridge/stream_run.go:469-482 | after frames at a constant trusted distance a gap or jump is published at that distance, before any at 40 milliseconds |
| MediaClock.PublishedVideoAdvances | pkg/bridge/stream_run.go:461-497 | over any run of both tracks published video times strictly increase in bounded steps |
| MediaClock.SteadyStreamsPassUnchanged | pkg/bridge/stream_run.go:461-497 | over any run of both tracks video is published at its unwrapped times exactly if these advance at trusted distances, unless one has the sign bit; even then only if they do |
| MediaClock.MediaTimeline.UnwrapClock | pkg/bridge/stream_run.go:507-526 | the first sample anchors to the wall clock, later ones only raise the highest time |
| MediaClock.MediaTimeline.PlaceNextVideo | pkg/bridge/stream_run.go:461-485 | the fields follow the specification, and the published time advances within bounds |
| MediaClock.MediaTimeline.PlaceAudio | pkg/bridge/stream_run.go:487-489 | audio is unwrapped on the shared clock and changes no correction |
| RtpClock.AfterIsForward | pkg/bridge/stream_run.go:588-594 | the signed comparison is the serial number order of section 3.2 of RFC 1982 |
| RtpClock.TimestampIsFloorOfTicks | pkg/bridge/rtsp.go:949-953 | the 64-bit split computes the exact number of elapsed ticks, rounded down, modulo 2^32 |
| RtpClock.GuardAdvances | pkg/bridge/stream_run.go:534-555 | for any input the next stamp is 1 to 2^31 - 1 ticks ahead |
| RtpClock.GuardTransparent | pkg/bridge/stream_run.go:534-555 | without a pending correction a stamp passes unchanged exactly if it is ahead |
| RtpClock.GuardedStampsMoveForward | pkg/bridge/stream_run.go:534-555 | guarded stamps always move forward, over any stream |
| RtpClock.GuardLeavesForwardStreamsAlone | pkg/bridge/stream_run.go:534-555 | a whole stream passes unchanged exactly if its stamps already move forward |
| RtpClock.GuardKeepsSpacing | pkg/bridge/stream_run.go:534-555 | for every guard: the next stamp keeps its distance exactly if that is one tick, or the stamp before was not nudged past a little backward step and the next one does not equal the last stamp sent |
| RtpClock.StreamKeepsSpacing | pkg/bridge/stream_run.go:534-555 | over any stream from the start neighbours keep their distance exactly under that condition |
| RtpClock.NudgeChangesSpacing | pkg/bridge/stream_run.go:544-553 | 100, 50, 110 go out as 100, 101, 110 |
| RtpClock.CollisionChangesSpacing | pkg/bridge/stream_run.go:540-543 | 1000000, 0, 1000001 go out as 1000000, 1000001, 1000002 |
| RtpClock.ForwardMeansNewTicks | pkg/bridge/rtsp.go:949-953 | the RTP stamps of advancing times are in serial order exactly if no two neighbours share a tick |
| RtpClock.VideoStampsFollowTheClock | pkg/bridge/stream_run.go:461-555 | from camera clock to RTP: stamps move forward, and the guard changes nothing exactly if no two frames share a tick |
| RtpClock.BatchNeverOverlaps | pkg/bridge/stream_run.go:557-586 | a batch never starts before the end of the one before it |
| RtpClock.BatchPlacement | pkg/bridge/stream_run.go:557-583 | a batch starts at its own stamp plus the pending correction or, if later, at the last end; only more than 90000 ticks behind it gets a new correction |
| RtpClock.ContinuationIsGapless | pkg/bridge/stream_run.go:562-567 | a batch that continues the last one starts exactly at its end |
| RtpClock.ContiguousBatchesAreGapless | pkg/bridge/stream_run.go:557-586 | batches contiguous on the camera clock are published without a gap, whatever correction the first one needed |
| RtpClock.AudioNeverOverlaps | pkg/bridge/rtsp.go:718-731 | over any sequence of batches none starts before the end of its predecessor |
| RtpClock.UntimedAudioIsGapless | pkg/bridge/rtsp.go:790-803 | audio without timestamps runs without gaps from its anchor |
| RtpClock.RtpTimestampGuard.NextStamp | pkg/bridge/stream_run.go:534-555 | the branches of the guard compute the specification and move forward |
| RtpClock.RtpTimestampGuard.ApplyBaseToPackets | pkg/bridge/stream_run.go:557-586 | no packets leave everything alone, else the batch is placed behind the last one |
| LiveEdge.AnchorTracksRunningMinimum | pkg/bridge/stream_run.go:377-417 | the anchor arithmetic measures each frame against the smallest wall minus media offset since the last resync, whatever the threshold is then |
| LiveEdge.RunFollowsReference | pkg/bridge/stream_run.go:377-417 | over any run and any changes of the threshold the frames dropped are those the history-based reference drops |
| LiveEdge.ResumesAtKeyframeWithinThreshold | pkg/bridge/stream_run.go:384-412 | after a dropped frame only a keyframe passes, or one with the threshold off; delta frames under a threshold pass only within it and are dropped beyond it; keyframes are never dropped |
| LiveEdge.StreamThatKeepsUpIsNeverCut | pkg/bridge/stream_run.go:391-403 | a stream within the threshold of its best delay loses no frame |
| LiveEdge.Dropper.Behind | pkg/bridge/stream_run.go:377-413 | for any threshold the verdict is the reference's on the whole history, and the skipped count restarts exactly when a keyframe ends the dropping |
| Resampler.BetweenNeighbours | pkg/bridge/talk_pipeline.go:163-169 | an interpolated sample lies between its neighbours, so its conversion to 16 bits is exact |
| Resampler.BatchLengthMeaning | pkg/bridge/talk_pipeline.go:160-162 | an output sample exists exactly if its position lies before the last input sample |
| Resampler.BatchIsBounded | pkg/bridge/talk_pipeline.go:160-170 | every output sample lies between the two input samples around position k * from / to |
| Resampler.BatchIsLinear | pkg/bridge/talk_pipeline.go:160-170 | output k is the point of the straight line between the two samples around k * from / to, rounded towards the first |
| Resampler.SamplesAreKept | pkg/bridge/talk_pipeline.go:160-170 | an output at the position of an input sample is that sample |
| Resampler.BatchGrows | pkg/bridge/talk_pipeline.go:152-176 | more input only adds output |
| Resampler.PcmResampler.Resample | pkg/bridge/talk_pipeline.go:152-176 | a packet's output continues the batch conversion of all samples so far, all indices in range |
| Resampler.PcmResampler.Interpolate | pkg/bridge/talk_pipeline.go:160-170 | the loop puts out one batch sample per position before the end of the packet |
| Resampler.PcmResampler.SampleAt | pkg/bridge/talk_pipeline.go:162-169 | the sample at a position is interpolated from its two neighbours among all samples seen, also across the packet boundary |
| Resampler.ResampleAll | pkg/bridge/talk_pipeline.go:140-176 | however the input is cut into packets, the outputs join to the batch conversion |
| Adpcm.SampleLockstep | pkg/codec/adpcm.go:53-169 | after any sample the decoder is in the encoder's state |
| Adpcm.NibbleMeaning | pkg/codec/adpcm.go:53-86 | a nibble of magnitude m jumps by (2 m + 1) / 8 of the step but for rounding, and moves the index by -1, or by 2, 4, 6, 8 from m = 4 on |
| Adpcm.EncoderFollowsItsNibble | pkg/codec/adpcm.go:121-169 | the encoder takes the direction for the sign, the largest magnitude that fits the distance, and moves as its nibble says |
| Adpcm.StepsGrow | pkg/codec/adpcm.go:14-24 | the steps go from 7 to 32767, each a tenth larger than the one before but for rounding |
| Adpcm.KnownSteps | pkg/codec/adpcm.go:14-24 | 22 steps in between |
| Adpcm.SmallJumpIsTracked | pkg/codec/adpcm.go:121-158 | a jump below twice the step is reconstructed within an eighth of the step, plus 2 |
| Adpcm.LargeJumpRaisesIndex | pkg/codec/adpcm.go:121-166 | a larger jump sets all bits and raises the index by 8 until it tops out |
| Adpcm.TopStepReachesAnything | pkg/codec/adpcm.go:121-158 | at the top of the table every sample is reconstructed within 4099 |
| Adpcm.AttackRaisesIndex | pkg/codec/adpcm.go:121-166 | n too large jumps in a row leave the index at 8 n or more, or at the top |
| Adpcm.AttackIsBounded | pkg/codec/adpcm.go:121-166 | after eleven overloaded samples the next one is within 4099 |
| Adpcm.UnpackPack | pkg/codec/adpcm.go:50-52 | the decoder takes the nibbles out of the bytes in the order they went in |
| Adpcm.HeaderRoundTrip | pkg/codec/adpcm.go:105-108 | the block header carries the encoder's state unchanged |
| Adpcm.BlockLockstep | pkg/codec/adpcm.go:94-119 | a block brings a decoder in any state in step with the encoder |
| Adpcm.Lockstep | pkg/codec/adpcm.go:39-119 | over any blocks decoding, from any state, gives the encoder's reconstruction of the unbroken sample stream |
| Adpcm.Encoder.EncodeNibble | pkg/codec/adpcm.go:121-169 | the step on the fields computes the specification |
| Adpcm.Encoder.EncodePcm | pkg/codec/adpcm.go:94-119 | nothing for no samples, an error for an odd number, else the header and the packed nibbles |
| Adpcm.Encoder.PutHeader | pkg/codec/adpcm.go:105-108 | the first four bytes hold the encoder's state |
| Adpcm.Encoder.EncodeSamples | pkg/codec/adpcm.go:110-117 | the bytes behind the header are the packed nibbles, and the fields end where the specification does |
| Adpcm.Decoder.OneNibble | pkg/codec/adpcm.go:53-86 | the step on the fields computes the specification |
| Adpcm.Decoder.DecodeData | pkg/codec/adpcm.go:39-90 | the samples of a block, nothing for fewer than four bytes |
| Adpcm.Decoder.DecodePayload | pkg/codec/adpcm.go:47-90 | two samples per byte, in the order of its nibbles |
| TalkPipeline.PlayoutIsTheBacklog | pkg/baichuan/talk.go:139-142 | the playout end is the latest of what each arrival forces: all blocks from it on still have to be played |
| TalkPipeline.TalkSession.WriteAdpcmBlock | pkg/baichuan/talk.go:114-144 | a written block goes out under the next sequence number and extends the playout; a refused write uses up that number and changes nothing else; a closed session or a block of the wrong size changes nothing at all |
| TalkPipeline.TalkSession.constructor | pkg/baichuan/talk.go:192-204 | the block size follows from the negotiated samples per block |
| TalkPipeline.Pipeline.Send | pkg/bridge/talk_pipeline.go:337-349 | an even block always has the size the session demands, an odd one is never written |
| TalkPipeline.Pipeline.WriteBlock | pkg/bridge/talk_pipeline.go:336-353 | the block leaves the buffer only when it was written |
| TalkPipeline.Pipeline.WriteBlocks | pkg/bridge/talk_pipeline.go:335-355 | written blocks and buffer together stay the same samples in the same order |
| TalkPipeline.Pipeline.ProcessPcm | pkg/bridge/talk_pipeline.go:357-365 | samples are conserved: blocks and buffer are the resampled input so far |
| TalkPipeline.Pipeline.ProcessAll | pkg/bridge/talk_pipeline.go:373-377 | the packets are taken in one by one, the first that fails ends it |
| TalkPipeline.Pipeline.PadLast | pkg/bridge/talk_pipeline.go:378-381 | what is left becomes one last block, filled up with zeros |
| TalkPipeline.Pipeline.Flush | pkg/bridge/talk_pipeline.go:369-382 | on success all queued samples are written and less than a block of zeros is added |
| TalkPipeline.Pipeline.Run | pkg/bridge/talk_pipeline.go:384-426 | of the packets piled up before the start only the newest counts, then everything received and queued; unless something fails, a camera on the connection decodes exactly the reconstruction of these samples and the final silence, however the bytes are cut |
| TalkPipeline.KeepNewest | pkg/bridge/talk_pipeline.go:384-397 | the loop that empties the channel keeps the last packet |
| TalkPipeline.BlockSizes | pkg/baichuan/talk.go:192-193 | every encoded block has half its samples in bytes, plus 4 |
| TalkPipeline.CameraHearsTheInput | pkg/bridge/talk_pipeline.go:335-382 | the units on the wire, cut anywhere, decode from any decoder state to the encoder's reconstruction of the resampled input and the final silence |
| TalkPipeline.WrittenIsHeard | pkg/bridge/talk_pipeline.go:335-382 | that holds of any pipeline whose buffer is empty, for the bytes its session has sent |
| StateQueue.StepKeepsInv | pkg/bridge/device.go:298-320 | every critical section keeps: one drainer while the flag is set, and nothing waits without it |
| StateQueue.OrderedNotification | pkg/bridge/device.go:293-322 | for every interleaving at most one drainer runs; delivered, in hand and pending are everything notified, in order |
| StateQueue.NothingIsLeftBehind | pkg/bridge/device.go:306-321 | every step but a new notification brings the end nearer, and at the end everything was called back with |
| StateQueue.CallbackQueue.NotifyState | pkg/bridge/device.go:298-305 | append, and start a drainer exactly if none runs |
| StateQueue.CallbackQueue.Take | pkg/bridge/device.go:309-317 | take the first state, or clear the flag when there is none |
| StateQueue.CallbackQueue.Drain | pkg/bridge/device.go:307-321 | an undisturbed drainer calls back with everything that waits, in order |

## Left out

- Sockets, dialing, discovery, heartbeats and timers: tickers are steps that may happen at any time, wall time is an input.
- Blocking on channels and shutdown channels: a loop may stop between any two steps; what is delivered after shutdown is not modelled.
- The packet ID's wrap at 2^32: numbering stops before it.
- 64-bit arithmetic that stays far from its bounds is over unbounded integers; the times of `MediaClock.TrueClockRecovered` are bounded below 2^63 instead.
- MediaClock.PlaceVideo: the moving average is over the reals, so float64 rounding is not modelled.
- UidRuns.WriteIsARun: a Write during which nothing else happens; interleaved with other steps it is the same actions in the state machine.
- UidSession.Session.MarshalChunk: a failing socket write is the writer stopping, without the error value.
- XML parsing and trimming: `Framing` takes them as arbitrary functions of the bytes.
- Framing.Connection.Decode: the clock is read once per message, where the code reads it at each use of the marks.
- AES and MD5: cipher feedback is over an arbitrary block function, so key derivation is not part of this model.
- Framing.RequestReadsBack: sender and reader have the same AES key, or none. Sides with different keys are not modelled.
- LiveEdge.Dropper.Behind: the rate-limited report and the lag it logs are not modelled.
- RtpClock.PublishAll: a batch the RTP encoder makes no packets of is not modelled, nor are the encoders, SDP and sessions.
- Preview: one consumer per subscription, request and reply matching by message number, and the other subscribers of `client.go` are not modelled.
- TalkPipeline.Pipeline.Run: the idle timer and cancellation only decide how many packets are received and how many are left for the flush; the retrying session around `TalkSession` is not modelled.
- Talk volume, silence detection, A-law and mu-law tables, ADTS parsing: single-branch or exhaustive-test facts.
- The rest of `stream_run.go`, `device.go` and `rtsp.go`, reference counting in `talk_rtsp.go`, webhooks, configuration, logging: plumbing without a property of its own.
