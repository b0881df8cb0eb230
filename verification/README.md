# Verification of the WebRTC client's protocol core

This project models, in Dafny, the protocol core of the client's WebRTC stack, and proves what
its separately written loops must agree on. Every component is one module in a file of its name.

* **DTLS transport** (`RecordLayer`, `Handshake`, `FragmentBuffer`, `Conn`, `Delivery`,
  `Network`): a handshake message is fragmented, stamped with sequence numbers, packed into
  datagrams, unpacked, reassembled and released in order, byte for byte the one that was sent.
* **DTLS transcript** (`HandshakeCache`, `Flights`, `Transcript`, `ClientReads`, `ServerFlight`,
  `ServerAccepts`, `Prf`): both ends hash "the last message of each kind" of their caches;
  flight 5 hashes messages it has not sent yet, and the server arrives at the same session hash
  and secret. Client and server go on from what they read exactly under the conditions given, and
  with exactly what the messages say.
* **DTLS end to end** (`Exchange`, `Endpoints`, `ClientRun`, `EndToEnd`, `ExchangeText`,
  `PskHandshake`): client and server joined by a network that loses, repeats and reorders; what
  the handshake theorems assume of the two caches is derived from what the two ends did, and what
  they hash is the messages exchanged, in the order of their numbers.
* **DTLS client runs** (`Handshaker`, `ClientConn`): what holds in every run of the client's
  handshake, as a state machine and as the methods that change the connection in place.
* **Hello messages** (`Streams`, `Extension`, `Hello`): ClientHello, ServerHello and their
  extensions, written to and read from streams.
* **STUN** (`Stun`, `StunIntegrity`): the message buffer written in place, its parser,
  MESSAGE-INTEGRITY and FINGERPRINT.
* **ICE** (`IceCandidate`, `IceAgent`, `IceSafety`, `IceEffects`, `IceRoles`, `IceChecklist`,
  `IceExample`): priorities, the agent's handlers, the safety of the selected pair, when exactly
  a step selects, nominates, fails or sends, when the roles that pairs remember are current, and
  the checklist as a cross product.
* **Signaling** (`Signaling`): the offer/answer machine of the peer connection.

What changes in place in the program is a class here, and each of its methods is proved equal to a
function on values; the lemmas about runs are about these functions. HMAC, hash, CRC, signatures,
key agreement, UTF-8 checking, body parsers, clocks and random ids are parameters, of which only
output lengths are assumed. Each handler is one atomic step. Run `dafny verify dfyconfig.toml`.

## Where the code decides

* `push` cuts fragment data by the whole message's length or the end of the record, not by the
  fragment length; the sender puts one fragment into a record, and delivery is proved for that.
* A record with several fragments therefore parses back only if all but the last are whole
  messages (`FragmentBuffer.RecordParsesBack`).
* `append_message` takes the first fragment at an offset and never tries another. Soundness holds
  for any slices; completeness needs all copies of a message to share one fragmentation
  (`FragmentBuffer.FragmentationsMustAgree`).
* `append_message` calls itself without end on an empty fragment that does not end its message,
  and `push` accepts such a fragment. `FragmentBuffer.AssembleFollowsChain` and
  `Conn.HangsExactly` say exactly when, `Conn.RecordThatHangs` gives the record.
* The server's flight 4 reads the client's Finished without comparing its verify data, although
  section 7.4.9 of RFC 5246 has the recipient verify it (`ServerAccepts.VerifyDataIsNotRead`).
* A truncated extension header stops the hello parser with an index error instead of a parse error
  (`Extension.WalkFailsExactly`, `Hello.ClientFailsExactly`).
* The documentation of the SDP types describes rollback as cancelling a negotiation; the code
  rejects it in every state. Local answers are compared with a last answer that nothing sets.
* The comment on the pair priority gives 2^32 as the factor of the smaller priority; the code uses
  2^32-1, which is why the largest value just fits. The orders agree for priorities up to 2^31 and
  no further, and for pairs that remember the agent's role (`IceCandidate.RanksExactly`).
* A pair remembers the role its agent had when the pair was formed. The client makes its agent as
  controlled and starts it as controlling, after it has handed over the candidates of the remote
  description, and nothing corrects the pairs formed before (`IceRoles.RolesCurrentExactly`,
  `IceRoles.StaleRun`).
* A controlling agent selects the pair that a response to its nominating request comes back on,
  which need not be the one it nominated (`IceExample.AnotherPairIsSelected`).
* A message reassembled from fragments of several epochs carries the epoch of the first fragment
  that arrived (`FragmentBuffer.EpochsMix`).

## Model

| member | source | states |
|---|---|---|
| `RecordLayer.HeaderRoundTrip` | client/src/webrtc/crates/dtls/record_layer/record_layer_header.rs:43-85 | every header with a 48-bit sequence number and a DTLS 1.0 or 1.2 version reads back unchanged, whatever bytes follow |
| `RecordLayer.HeaderLayout` | client/src/webrtc/crates/dtls/record_layer/record_layer_header.rs:43-59 | where each field is in the thirteen bytes, its value in network byte order, the content types by number |
| `RecordLayer.MarshalTo` | client/src/webrtc/crates/dtls/record_layer/record_layer_header.rs:43-59 | field-by-field writing appends exactly the header bytes; a number above 2^48-1 is refused and writes nothing |
| `RecordLayer.UnmarshalFrom` | client/src/webrtc/crates/dtls/record_layer/record_layer_header.rs:61-85 | field-by-field reading returns what the header function says, error order included, and leaves the stream behind the 13 bytes |
| `RecordLayer.UnpackDatagram` | client/src/webrtc/crates/dtls/record_layer/mod.rs:82-103 | the offset loop returns the records of the datagram or the length error |
| `RecordLayer.UnpackExact` | client/src/webrtc/crates/dtls/record_layer/mod.rs:82-103 | unpacking yields a list of records if and only if the datagram is their concatenation, each record carries its own length and the last has a payload |
| `RecordLayer.CompactRawPackets` | client/src/webrtc/crates/dtls/conn/mod.rs:1139-1156 | the packing loop returns the greedy grouping for the MTU |
| `RecordLayer.CompactRoundTrip` | client/src/webrtc/crates/dtls/conn/mod.rs:1139-1156 | unpacking each packed datagram and concatenating gives the records back in order, a datagram of two or more records is shorter than the MTU, and a datagram is followed by another only if the next record would have brought it to the MTU |
| `Handshake.HeaderRoundTrip` | client/src/webrtc/crates/dtls/handshake/handshake_header.rs:24-48 | the 12-byte header reads back unchanged in front of any bytes |
| `Handshake.HeaderLayout` | client/src/webrtc/crates/dtls/handshake/handshake_header.rs:24-32 | where each field is in the twelve bytes, in network byte order, the message types by number |
| `Handshake.MarshalHeaderTo` | client/src/webrtc/crates/dtls/handshake/handshake_header.rs:24-32 | writing on a stream appends exactly the header bytes |
| `Handshake.UnmarshalHeaderFrom` | client/src/webrtc/crates/dtls/handshake/handshake_header.rs:34-48 | reading from a stream returns the header and leaves what follows it, or fails on fewer than twelve bytes |
| `Handshake.NewMessage` | client/src/webrtc/crates/dtls/handshake/mod.rs:171-182 | a new message is unfragmented, numbered 0, and its header carries the length of its body |
| `FragmentBuffer.FragmentBuffer.Push` | client/src/webrtc/crates/dtls/fragment_buffer/mod.rs:33-72 | the loop over one record leaves the buffer and the result that the specification of push gives, data cut by the length field or the end of the record |
| `FragmentBuffer.PushSaysExactly` | client/src/webrtc/crates/dtls/fragment_buffer/mod.rs:33-72 | true if and only if a whole handshake record was taken, false if and only if the record is of another kind, else an error; the buffer is untouched by what is no handshake record |
| `FragmentBuffer.FragmentBuffer.Pop` | client/src/webrtc/crates/dtls/fragment_buffer/mod.rs:74-113 | a complete message at the current number is returned with an unfragmented header, its fragments dropped and the number advanced; otherwise nothing changes; called only where the source returns at all |
| `FragmentBuffer.PopTakesItOut` | client/src/webrtc/crates/dtls/fragment_buffer/mod.rs:74-113 | a popped message is gone, the number is the next one, wrapping at 65535, and all other messages stay; a pop that returns none changes nothing |
| `FragmentBuffer.AppendMessage` | client/src/webrtc/crates/dtls/fragment_buffer/mod.rs:115-135 | where the recursive search returns, it builds the bytes of the chain of first fragments, without backtracking |
| `FragmentBuffer.FirstAtExactly` | client/src/webrtc/crates/dtls/fragment_buffer/mod.rs:115-135 | by index: the fragment tried at an offset is the one stored earliest among those that start there, for every list of fragments |
| `FragmentBuffer.LaterAtAnOffsetIsIgnored` | client/src/webrtc/crates/dtls/fragment_buffer/mod.rs:33-135 | for every buffer and record: if each fragment of the record for the current message starts where one is stored, pop returns what it would have returned without the record |
| `FragmentBuffer.ShortPieceFirst` | client/src/webrtc/crates/dtls/fragment_buffer/mod.rs:115-135 | a first piece of a message, and then the whole message sent again: pop finds it incomplete, although the whole one alone would be returned |
| `FragmentBuffer.LoopsExactly` | client/src/webrtc/crates/dtls/fragment_buffer/mod.rs:115-135 | the third outcome of the specification means that no number of unrolled calls of append_message is enough |
| `FragmentBuffer.AssembleFollowsChain` | client/src/webrtc/crates/dtls/fragment_buffer/mod.rs:115-135 | for every list of fragments: it does not return, it succeeds or it fails if and only if the chain of first fragments gets to an empty fragment that does not end the message, to one that ends it, or to an offset with none |
| `FragmentBuffer.StuckRecordIsAccepted` | client/src/webrtc/crates/dtls/fragment_buffer/mod.rs:33-113 | push accepts a record of one empty fragment with message length 1, and pop then does not return, unless a fragment at offset 0 came before it |
| `FragmentBuffer.FragmentationsMustAgree` | client/src/webrtc/crates/dtls/fragment_buffer/mod.rs:115-135 | slices [0, 2) and [1, 4) of a four-byte body cover it and do not assemble |
| `FragmentBuffer.RecordParsesBack` | client/src/webrtc/crates/dtls/fragment_buffer/mod.rs:46-66 | a record put together from fragments parses back into them if and only if all but the last are whole messages |
| `FragmentBuffer.PushKeepsApartExactly` | client/src/webrtc/crates/dtls/fragment_buffer/mod.rs:33-72 | push leaves every message with fragments of one epoch if and only if each fragment of the record is of the epoch of those its message has already |
| `FragmentBuffer.PopsInItsEpoch` | client/src/webrtc/crates/dtls/fragment_buffer/mod.rs:74-113 | then a popped message carries the epoch that all its fragments came in, and pop leaves it so |
| `FragmentBuffer.PopsInItsEpochExactly` | client/src/webrtc/crates/dtls/fragment_buffer/mod.rs:74-135 | for every buffer: the fragments whose data make up a popped message are all of the epoch it carries if and only if the first fragment at every offset append_message gets to is |
| `FragmentBuffer.EpochsMix` | client/src/webrtc/crates/dtls/fragment_buffer/mod.rs:74-135 | two halves of a message sent in different epochs are put together, and the message carries the epoch of the first |
| `FragmentBuffer.AssembleSound` | client/src/webrtc/crates/dtls/fragment_buffer/mod.rs:115-135 | over fragments that are slices of one message, overlapping or repeated, an assembled result is exactly the suffix of the message from the offset |
| `FragmentBuffer.AssembleComplete` | client/src/webrtc/crates/dtls/fragment_buffer/mod.rs:115-135 | over pieces of one fixed fragmentation, assembly succeeds if and only if every cut has arrived, and then gives the whole body |
| `Conn.SplitBytes` | client/src/webrtc/crates/dtls/conn/mod.rs:1158-1171 | the split loop cuts consecutive pieces of the given length, none for an empty input |
| `Conn.FragmentHandshake` | client/src/webrtc/crates/dtls/conn/mod.rs:691-734 | one fragment per piece, each header with the offset and length of its piece; one empty fragment for an empty body |
| `Conn.FragmentsAre` | client/src/webrtc/crates/dtls/conn/mod.rs:691-734 | by place: the i-th fragment starts at i times the MTU and is as long as the MTU, the last has what is left and is empty only for an empty body |
| `Conn.Sender.ProcessPacket` | client/src/webrtc/crates/dtls/conn/mod.rs:590-629 | a plain packet takes the next number of its epoch, or is refused above 2^48-1 with the number spent |
| `Conn.Sender.ProcessHandshakePacket` | client/src/webrtc/crates/dtls/conn/mod.rs:631-689 | the fragments take consecutive numbers of their epoch, up to the first refused one |
| `Conn.RecordsCarryThePacket` | client/src/webrtc/crates/dtls/conn/mod.rs:590-689 | a packet becomes records of its version and epoch, of the handshake type or its own, whose payloads are the fragments of its message or its one payload |
| `Conn.Sender.HandleOutgoingPackets` | client/src/webrtc/crates/dtls/conn/mod.rs:522-588 | a batch is cached, numbered and packed, or nothing is sent after an error |
| `Conn.RecordNumbersNeverRepeat` | client/src/webrtc/crates/dtls/conn/mod.rs:590-689 | over every run of batches, in one epoch later records carry larger numbers, no epoch and number repeat, and none exceeds 2^48-1 |
| `Conn.RecordNumbersHaveNoGaps` | client/src/webrtc/crates/dtls/conn/mod.rs:590-689 | over every run in which no batch fails the records of an epoch are numbered 0, 1, 2 and so on |
| `Conn.Reader.HandleHandshakeRecord` | client/src/webrtc/crates/dtls/conn/mod.rs:983-1018 | one record pushed, and the pop loop caches every message that became complete, in order |
| `Conn.HangsExactly` | client/src/webrtc/crates/dtls/conn/mod.rs:983-1018 | the reader does not come back from a record if and only if the message its pop loop has got to is one that append_message loops on |
| `Conn.RecordThatHangs` | client/src/webrtc/crates/dtls/conn/mod.rs:983-1018 | one plain record does that to any buffer with no fragment at offset 0 of the current message |
| `Delivery.DeliveryExact` | client/src/webrtc/crates/dtls/fragment_buffer/mod.rs:33-135 | for messages numbered from 0 and fragments arriving in any order with any repeats and losses, what was popped is exactly the leading run of messages whose fragments all arrived, each once, in order, bytes equal |
| `Delivery.DeliveryComplete` | client/src/webrtc/crates/dtls/conn/mod.rs:983-1018 | once every fragment record has arrived at least once every message has been popped exactly once, in order, bytes equal |
| `Network.RunDatagrams` | client/src/webrtc/crates/dtls/conn/mod.rs:522-588 | over every run of sent batches the datagrams unpack to exactly the records of the batches that succeeded, in order and as often |
| `Network.NetworkIsGenuine` | client/src/webrtc/crates/dtls/conn/mod.rs:533-565 | every raw record unpacked from sent datagrams, delivered in any order and multiplicity, is a fragment of a sent message or a non-handshake record |
| `Network.NetworkDeliversPrefix` | client/src/webrtc/crates/dtls/conn/mod.rs:522-734 | from sender calls over a network that reorders, repeats and loses, the receiver has popped a prefix of the sent messages, unchanged |
| `Network.NetworkDeliversAll` | client/src/webrtc/crates/dtls/conn/mod.rs:522-734 | and all of them, once every datagram has been delivered at least once |
| `HandshakeCache.HandshakeCache.Push` | client/src/webrtc/crates/dtls/handshake/handshake_cache.rs:40-68 | a message is appended unless one with its sender and sequence number is cached; the first wins |
| `HandshakeCache.HandshakeCache.PullRules` | client/src/webrtc/crates/dtls/handshake/handshake_cache.rs:70-94 | the nested loops pull, rule by rule, the best cached message |
| `HandshakeCache.HandshakeCache.PullAndMerge` | client/src/webrtc/crates/dtls/handshake/handshake_cache.rs:150-160 | the pulled messages are concatenated |
| `HandshakeCache.HandshakeCache.SessionHash` | client/src/webrtc/crates/dtls/handshake/handshake_cache.rs:162-237 | the hash of the eight session messages followed by the bytes not yet cached |
| `HandshakeCache.SessionIs` | client/src/webrtc/crates/dtls/handshake/handshake_cache.rs:162-237 | what is hashed: the last ClientHello, the server's ServerHello, Certificate, ServerKeyExchange, CertificateRequest and ServerHelloDone, the client's Certificate and its ClientKeyExchange, in this order and as far as they are there, each the highest numbered of its sender, then what is added |
| `HandshakeCache.HandshakeCache.FullPullMap` | client/src/webrtc/crates/dtls/handshake/handshake_cache.rs:97-147 | the two loops return the map of parsed messages and the next number, or the error |
| `HandshakeCache.BestMeans` | client/src/webrtc/crates/dtls/handshake/handshake_cache.rs:70-94 | a rule selects a cached message of its type, sender and epoch with the highest sequence number, and none only if none matches |
| `HandshakeCache.BestExactly` | client/src/webrtc/crates/dtls/handshake/handshake_cache.rs:70-94 | by index, for every cache: a matching message with a number above those of all matching ones before it and not below those behind it |
| `HandshakeCache.TranscriptIsOrderFree` | client/src/webrtc/crates/dtls/handshake/handshake_cache.rs:40-158 | two caches fed the same messages, in any order and with any repeats, no two different ones sharing sender and number, merge to the same bytes for every rule list |
| `HandshakeCache.TranscriptOrderMattersOnConflict` | client/src/webrtc/crates/dtls/handshake/handshake_cache.rs:47-54 | two different messages with one sender and number, fed in the two orders, merge to different bytes |
| `HandshakeCache.OrderFreeExactly` | client/src/webrtc/crates/dtls/handshake/handshake_cache.rs:40-68 | for every list of pushes: any order and any repeats leave the same messages in the cache if and only if no two different ones share sender and number |
| `HandshakeCache.FullPullIsGapFree` | client/src/webrtc/crates/dtls/handshake/handshake_cache.rs:97-147 | for rules of distinct types it succeeds if and only if every mandatory rule is present and the chosen messages parse and are numbered consecutively from the start in rule order; the number returned is the start plus how many were found |
| `HandshakeCache.FullPullFailsExactly` | client/src/webrtc/crates/dtls/handshake/handshake_cache.rs:97-147 | which error: a mandatory message is missing, or else the first chosen one that is not as it should be does not parse, or is numbered out of turn |
| `Prf.PrfPHash` | client/src/webrtc/crates/dtls/prf/mod.rs:145-166 | the loop returns exactly the first n bytes of the P_hash stream of section 5 of RFC 5246 |
| `Prf.PHashPrefix` | client/src/webrtc/crates/dtls/prf/mod.rs:145-166 | helper: a shorter request is a prefix of a longer one |
| `Prf.SecretsSpelledOut` | client/src/webrtc/crates/dtls/prf/mod.rs:145-281 | master secret, extended master secret, both verify data and the key block, written out as HMAC values over the text of the label and the seeds in their order |
| `Prf.PrfEncryptionKeys` | client/src/webrtc/crates/dtls/prf/mod.rs:190-237 | the six parts are consecutive slices of the key block in the order of section 6.3 of RFC 5246 |
| `Prf.PartitionLosesNothing` | client/src/webrtc/crates/dtls/prf/mod.rs:190-237 | the six parts concatenated are the whole key block |
| `Prf.DirectionsAgree` | client/src/webrtc/crates/dtls/cipher_suite/cipher_suite_aes_128_gcm_sha256.rs:58-92 | the client writes with the key and IV the server reads with, and the reverse |
| `Transcript.PredictedNumbersHold` | client/src/webrtc/crates/dtls/flight/flight5.rs:299-339 | the numbers flight 5 predicts for its messages are those prepare assigns; only Finished is renumbered, to the one after |
| `Transcript.Flight5HashesTheFuture` | client/src/webrtc/crates/dtls/flight/flight5.rs:434-578 | session hash, signature and verify data, computed before sending, are over what pull_and_merge gives once the flight has been sent |
| `Transcript.Flight4HasKeyMessages` | client/src/webrtc/crates/dtls/flight/flight4.rs:52-82 | when the pull of flight 4 succeeds the cache holds the client's key exchange, and its certificate if one was sent |
| `Transcript.ServerAgreesOnSession` | client/src/webrtc/crates/dtls/flight/flight4.rs:321-341 | the server's session hash and signed transcript are the ones the client computed before sending |
| `ExchangeText.ClientHashesTheExchange` | client/src/webrtc/crates/dtls/flight/flight5.rs:434-578 | over a network that loses, repeats and reorders: master secret and signature are over the last ClientHello, the server's flight and flight 5 up to ClientKeyExchange, the verify data over that and CertificateVerify, the messages whole and in the order of their numbers |
| `ExchangeText.ServerHashesTheExchange` | client/src/webrtc/crates/dtls/flight/flight4.rs:124-341 | a server that can pull flight 5 hashes and checks the signature over that same text |
| `ExchangeText.ServersFinishedCoversTheExchange` | client/src/webrtc/crates/dtls/flight/flight6.rs:70-186 | a server past flight 4 makes its Finished over the whole exchange: the last ClientHello, its own flight, and flight 5 with the client's Finished |
| `ServerFlight.Flight6IsAccepted` | client/src/webrtc/crates/dtls/flight/flight5.rs:39-173 | the Finished that flight 6 makes, over a cache with the same transcript messages and with the same secret, passes the client's check |
| `ServerFlight.ServerConn.GenerateFlight6` | client/src/webrtc/crates/dtls/flight/flight6.rs:70-186 | ChangeCipherSpec and Finished, the verify data computed once over the ten pulled messages |
| `ServerFlight.Flight6IsNumbered` | client/src/webrtc/crates/dtls/flight/flight6.rs:70-186 | numbering gives that Finished the next number and changes nothing else |
| `ServerFlight.ServerReadsFlight5` | client/src/webrtc/crates/dtls/flight/flight4.rs:52-200 | the key exchange the server parses is the one sent, and a CertificateVerify it parses is the client's signature over the text the server pulls |
| `ServerFlight.MasterSecretsAgree` | client/src/webrtc/crates/dtls/flight/flight4.rs:263-385 | client and server derive the same master secret, extended or not, given the same pre-master secret, randoms and choice of extension; flight 6 is entered only with it |
| `ServerFlight.SignatureIsOverTheServersTranscript` | client/src/webrtc/crates/dtls/flight/flight4.rs:124-262 | a server that accepts the signatures the client makes, and whose chain verifier accepts the certificate if it asks one, does not object to its CertificateVerify |
| `ServerFlight.ServerConn.ParseFlight4` | client/src/webrtc/crates/dtls/flight/flight4.rs:45-470 | parse, with the queued encrypted messages cached in between, leaves state and cache and returns what the specification gives |
| `ServerAccepts.Enters6Exactly` | client/src/webrtc/crates/dtls/flight/flight4.rs:45-470 | for every cache, state and configuration parse goes on to flight 6 if and only if: the client's messages are numbered without a gap and of their types, a CertificateVerify comes with accepted certificates and signature, a needed secret can be had, a Finished is next, and the certificates asked for are there |
| `ServerAccepts.Takes4Exactly` | client/src/webrtc/crates/dtls/flight/flight4.rs:45-470 | and what is in the state then: the receive sequence behind Finished, the certificates of the client's Certificate, verified if their chain was, the master secret made once of the key exchange and, if extended, of the session; nothing else has changed |
| `ServerAccepts.Rejects4Exactly` | client/src/webrtc/crates/dtls/flight/flight4.rs:45-470 | and it ends the handshake if and only if a CertificateVerify has no certificates or is refused, a needed secret cannot be had, or with a Finished next the certificates asked for are missing or not verified |
| `ServerAccepts.VerifyDataIsNotRead` | client/src/webrtc/crates/dtls/flight/flight4.rs:404-470 | whatever body the client's Finished has, cached already or still queued, the state and the next flight are the same: its verify data is not compared |
| `ServerAccepts.WrongVerifyDataIsTaken` | client/src/webrtc/crates/dtls/flight/flight4.rs:404-470 | so any body at all, wrong ones included, gets a server to flight 6 |
| `Exchange.SendingCaches` | client/src/webrtc/crates/dtls/conn/mod.rs:533-565 | sending a batch, as client or server, caches its handshake messages, whole, in order, up to the one that fails |
| `Endpoints.EmitsItsCalls` | client/src/webrtc/crates/dtls/conn/mod.rs:522-588 | whatever an end receives in between, its numbers and datagrams are those of the run of its calls |
| `Endpoints.CacheHolds` | client/src/webrtc/crates/dtls/conn/mod.rs:983-1018 | in every run of sends, failed ones included, and of records of the peer in any order, the cache shared by sender and reader has one message a key, holds what was sent, the first n of the peer's messages, and nothing else |
| `ClientConn.ClientConn.ParseFlight1` | client/src/webrtc/crates/dtls/flight/flight1.rs:37-116 | parse of flight 1: state and outcome of the specification, ServerHello handing over to flight 3 |
| `ClientConn.ClientConn.ParseFlight3` | client/src/webrtc/crates/dtls/flight/flight3.rs:41-343 | parse of flight 3: state and outcome of the specification, HelloVerifyRequest before the server flight |
| `ClientReads.Enters5Exactly` | client/src/webrtc/crates/dtls/flight/flight3.rs:41-343 | for every cache with one message a key: flight 1 or 3 goes on to flight 5 if and only if no HelloVerifyRequest comes first, the server's flight is there without a gap, filed under its types, and ServerHello and key exchange are accepted; then random, extended master secret and keys are those of these messages, the request flag is set if and only if it was or a CertificateRequest was read, and nothing else has changed |
| `ClientReads.Enters3Exactly` | client/src/webrtc/crates/dtls/flight/flight3.rs:46-106 | it goes on to flight 3 if and only if a HelloVerifyRequest is next, of its type and version; then the cookie is its cookie and the receive sequence one further |
| `ClientReads.RejectsExactly` | client/src/webrtc/crates/dtls/flight/flight3.rs:41-343 | it ends the handshake if and only if the version of such a HelloVerifyRequest, the ServerHello or the key exchange is refused |
| `ClientReads.Flight5HasRead` | client/src/webrtc/crates/dtls/handshaker.rs:326-342 | in every run a client about to send flight 5 has come from a point where it read the server's flight in its cache, and its state is what that flight says |
| `ClientReads.CertificateAsAsked` | client/src/webrtc/crates/dtls/flight/flight5.rs:199-432 | in every run flight 5 has a Certificate if and only if the server's flight in the cache at that point had a CertificateRequest and there is no pre-shared key, a CertificateVerify if and only if there also is a local certificate, and the key exchange is for the key agreed on |
| `ClientReads.OrdinaryFlightIsRead` | client/src/webrtc/crates/dtls/flight/flight3.rs:115-343 | for instance the five messages of a full flight, numbered on from the receive sequence, take flight 3 to flight 5 with a certificate asked for |
| `ClientConn.ClientConn.ParseFlight5` | client/src/webrtc/crates/dtls/flight/flight5.rs:39-173 | the Finished check |
| `ClientReads.Parse5Exactly` | client/src/webrtc/crates/dtls/flight/flight5.rs:39-173 | with a suite chosen: it keeps reading until the server's last Finished is next in sequence, and then is done if its body is the PRF of the master secret over the transcript, and ends the handshake if not |
| `ClientConn.ClientConn.PredictNumbers` | client/src/webrtc/crates/dtls/flight/flight5.rs:299-339 | the loop over unsent packets renumbers them from the send sequence and merges their bytes |
| `ClientConn.ClientConn.GenerateFlight5` | client/src/webrtc/crates/dtls/flight/flight5.rs:175-593 | the packets built step by step, and the secrets written to the state, are those of the specification, or an error |
| `ClientReads.Generates5Exactly` | client/src/webrtc/crates/dtls/flight/flight5.rs:175-593 | flight 5 can be generated if and only if the cached ServerKeyExchange can be read or else a key be agreed on, its signature holds unless there is a pre-shared key, and the client can sign if it has to |
| `ClientReads.Generates5Leaves` | client/src/webrtc/crates/dtls/flight/flight5.rs:175-593 | then the keys are those agreed on before, or afresh without a ServerKeyExchange, the suite is ready, and nothing but the secrets and the verify data has changed |
| `ClientConn.ClientConn.NumberFlights` | client/src/webrtc/crates/dtls/handshaker.rs:264-277 | the numbering loop of prepare gives each handshake packet the next send sequence |
| `ClientConn.ClientConn.Handle` | client/src/webrtc/crates/dtls/handshaker.rs:196-362 | one event, handled in place, is one step of the state machine; where a flight cannot be generated it also says what is left of packets and secrets |
| `Handshaker.RunsMoveForward` | client/src/webrtc/crates/dtls/handshaker.rs:301-362 | in every run flights move 1 to 3 (repeated) to 5 or 1 straight to 5, the receive sequence never decreases, and in flight 5 a cipher suite is chosen |
| `Handshaker.FinishesOnlyVerified` | client/src/webrtc/crates/dtls/handshaker.rs:326-342 | the only step into Finished is from flight 5 with a server Finished whose body is the PRF of the master secret over the cached transcript |
| `Handshaker.CompleteOnlyVerified` | client/src/webrtc/crates/dtls/handshaker.rs:196-218 | a run that marks the handshake complete has at an earlier point verified such a Finished |
| `Handshaker.FailsExactly` | client/src/webrtc/crates/dtls/handshaker.rs:196-362 | a step ends the handshake with an error if and only if it had ended so, a flight cannot be generated, a send fails or parse refuses what it read |
| `Handshaker.EndedIsFinal` | client/src/webrtc/crates/dtls/handshaker.rs:196-218 | in every run, after an error or completion nothing but the cache changes |
| `Handshaker.RunsHashTheFuture` | client/src/webrtc/crates/dtls/flight/flight5.rs:175-593 | in every run that generates flight 5, master secret, signature and verify data are computed, and over the transcripts of the cache after two more steps have sent it |
| `Handshaker.CookieIsEchoed` | client/src/webrtc/crates/dtls/flight/flight3.rs:46-106 | an accepted HelloVerifyRequest, in flight 1 or 3, is answered by a ClientHello with its cookie, the receive sequence behind it |
| `Handshaker.CertificateOnlyIfRequested` | client/src/webrtc/crates/dtls/flight/flight5.rs:199-432 | helper: flight 5 has a Certificate if and only if one was requested, and a CertificateVerify if and only if there also is a local certificate |
| `Handshaker.RetransmissionChangesNothing` | client/src/webrtc/crates/dtls/handshaker.rs:289-300 | a timeout sends the same packets with the same numbers and leaves state and cache as they were |
| `ClientRun.PlayIsReach` | client/src/webrtc/crates/dtls/handshaker.rs:196-362 | a client that drives its own sender and hears records through its reader only gets to states that the state machine reaches |
| `ClientRun.CallsAreListed` | client/src/webrtc/crates/dtls/handshaker.rs:264-300 | in every run what is handed to the sender is on one list of whole messages numbered from 0, retransmissions included |
| `ClientRun.PreparedIsSent` | client/src/webrtc/crates/dtls/handshaker.rs:220-300 | in every run a client that has not failed has sent every message it prepared, or is about to |
| `EndToEnd.ServerSeesFlight5` | client/src/webrtc/crates/dtls/flight/flight4.rs:52-82 | over a network that loses, repeats and reorders, a successful pull of flight 4 starts at the client's send sequence, and the server's cache has the client's messages up to ServerHelloDone and none of the client's but those sent |
| `EndToEnd.ServerSeesAll` | client/src/webrtc/crates/dtls/flight/flight4.rs:52-82 | and once every record of a client that has sent all has been heard, the pull does succeed |
| `EndToEnd.TranscriptsAgree` | client/src/webrtc/crates/dtls/handshake/handshake_cache.rs:150-158 | once everything has crossed, both caches merge to the same bytes for every rule list |
| `EndToEnd.SecretsAgree` | client/src/webrtc/crates/dtls/flight/flight4.rs:45-470 | over any such network, for every run of the client and every run of the server: a server that goes on to flight 6 has the client's master secret |
| `EndToEnd.HandshakeCompletes` | client/src/webrtc/crates/dtls/handshaker.rs:326-342 | over any such network, a client that hears the Finished of that server accepts it, with the master secret they share |
| `PskHandshake.HandshakeHappens` | client/src/webrtc/crates/dtls/handshaker.rs:196-362 | there are runs that meet the conditions of these theorems: for any MTUs, hash and HMAC a pre-shared key client gets to flight 5 over the network and sends it, and a server hears all of it |
| `PskHandshake.HandshakeFinishes` | client/src/webrtc/crates/dtls/handshaker.rs:196-362 | and from there the server goes on to flight 6, and the client that hears it finishes, with the server's master secret |
| `Extension.WalkExactly` | client/src/webrtc/crates/dtls/extension/mod.rs:74-129 | a list of extensions that fits its length field comes back from the walk if and only if each is representable, the walk landing on every boundary |
| `Extension.WalkFailsExactly` | client/src/webrtc/crates/dtls/handshake/handshake_message_client_hello.rs:158-177 | for every buffer the loop stops on an index if and only if the chain of length fields leaves one to three bytes, and never otherwise |
| `Extension.TrailingByteFails` | client/src/webrtc/crates/dtls/handshake/handshake_message_client_hello.rs:158-177 | for instance on one byte behind any extension |
| `Extension.ReadsBack` | client/src/webrtc/crates/dtls/extension/mod.rs:90-129 | each of the seven kinds reads back as itself in front of any bytes |
| `Extension.Layout` | client/src/webrtc/crates/dtls/extension/mod.rs:90-101 | where every field of each of the seven kinds is: type number, length, list lengths and codes in network byte order |
| `Extension.TakenIsRepresentable` | client/src/webrtc/crates/dtls/extension/mod.rs:103-129 | whatever bytes an extension is read from, it is representable |
| `Extension.SizeIsLength` | client/src/webrtc/crates/dtls/extension/mod.rs:74-101 | size is the marshalled length, for every kind |
| `Extension.MarshalTo` | client/src/webrtc/crates/dtls/extension/mod.rs:90-101 | writing an extension field by field appends its bytes, list lengths cut to their fields |
| `Extension.UnmarshalFrom` | client/src/webrtc/crates/dtls/extension/mod.rs:103-129 | reading an extension field by field returns what the specification gives and leaves the rest |
| `Extension.WalkBuffer` | client/src/webrtc/crates/dtls/handshake/handshake_message_client_hello.rs:158-177 | the offset loop returns the walk of the buffer, unreadable extensions skipped, an index error on a truncated header |
| `Hello.ClientHelloRoundTrips` | client/src/webrtc/crates/dtls/handshake/handshake_message_client_hello.rs:98-189 | a ClientHello comes back from its bytes if and only if: cookie at most 255 bytes, fewer than 32768 suites, at most 255 compressions, all Null, a whole-second time from 1970 in 32 bits, representable extensions of at most 65535 bytes |
| `Hello.ClientSizeIsLength` | client/src/webrtc/crates/dtls/handshake/handshake_message_client_hello.rs:75-132 | marshalling fails only on a cookie above 255 bytes, and size is the marshalled length |
| `Hello.ClientLayout` | client/src/webrtc/crates/dtls/handshake/handshake_message_client_hello.rs:98-132 | where every field of a ClientHello is, from the version to the extensions |
| `Hello.HeaderLengthIsRight` | client/src/webrtc/crates/dtls/handshake/mod.rs:171-182 | helper: the handshake header of a ClientHello carries its size |
| `Hello.ServerHelloRoundTrips` | client/src/webrtc/crates/dtls/handshake/handshake_message_server_hello.rs:74-146 | a ServerHello comes back if and only if its time is a whole second and its extensions are representable and at most 65535 bytes |
| `Hello.ClientFailsExactly` | client/src/webrtc/crates/dtls/handshake/handshake_message_client_hello.rs:134-189 | for every input, reading a ClientHello stops on that index if and only if its length fields lead to a complete extension block that is cut so |
| `Hello.ServerFailsExactly` | client/src/webrtc/crates/dtls/handshake/handshake_message_server_hello.rs:100-146 | the same for a ServerHello |
| `Hello.ServerSizeIsLength` | client/src/webrtc/crates/dtls/handshake/handshake_message_server_hello.rs:56-98 | size is the marshalled length |
| `Hello.ServerLayout` | client/src/webrtc/crates/dtls/handshake/handshake_message_server_hello.rs:74-98 | where every field of a ServerHello is |
| `Hello.MarshalClientTo` | client/src/webrtc/crates/dtls/handshake/handshake_message_client_hello.rs:98-132 | field-by-field writing appends the marshalled bytes |
| `Hello.UnmarshalClientFrom` | client/src/webrtc/crates/dtls/handshake/handshake_message_client_hello.rs:134-189 | field-by-field reading with its loops returns what the specification gives |
| `Hello.MarshalServerTo` | client/src/webrtc/crates/dtls/handshake/handshake_message_server_hello.rs:74-98 | field-by-field writing appends the marshalled bytes |
| `Hello.UnmarshalServerFrom` | client/src/webrtc/crates/dtls/handshake/handshake_message_server_hello.rs:100-146 | field-by-field reading, the session id skipped by its length, returns what the specification gives |
| `Hello.ReadCompression` | client/src/webrtc/crates/dtls/compression_methods.rs:41-52 | the loop keeps the supported ids |
| `Hello.RandomReadsBack` | client/src/webrtc/crates/dtls/handshake/handshake_random.rs:32-65 | a random with a whole-second time reads back |
| `Stun.TypeReadsBack` | client/src/webrtc/crates/stun/message.rs:467-515 | value then read_value keeps twelve bits of method and two of class |
| `Stun.TypeBits` | client/src/webrtc/crates/stun/message.rs:467-515 | bit by bit: the class is bits 4 and 8 of the type field, the method bits 0 to 3, 5 to 7 and 9 to 13, the first two bits zero |
| `Stun.Message.Add` | client/src/webrtc/crates/stun/message.rs:142-189 | the buffer grown and written in place, the attribute pushed and the length rewritten |
| `Stun.AddAppends` | client/src/webrtc/crates/stun/message.rs:142-189 | whatever the length field held, add appends exactly one zero-padded TLV and makes the length that of the attributes |
| `Stun.AddKeepsWellFormed` | client/src/webrtc/crates/stun/message.rs:142-195 | the buffer stays the header followed by the padded attributes |
| `Stun.Message.WriteHeader` | client/src/webrtc/crates/stun/message.rs:198-206 | type, length, cookie and transaction id written in place |
| `Stun.HeaderLayout` | client/src/webrtc/crates/stun/message.rs:198-225 | where type, length, cookie and transaction id are, in network byte order |
| `Stun.TlvLayout` | client/src/webrtc/crates/stun/message.rs:142-189 | where type, length and value of an attribute are, and that it is padded with zeros to a multiple of 4 |
| `Stun.Message.Decode` | client/src/webrtc/crates/stun/message.rs:227-301 | decode leaves the fields and returns the result of the specification, what was parsed before an error included |
| `Stun.DecodeExactly` | client/src/webrtc/crates/stun/message.rs:227-301 | for every buffer: decode succeeds if and only if it has twenty bytes, the cookie, as many bytes as the length says, and a body that can be cut into padded attributes; and what each error means |
| `Stun.ParseBody` | client/src/webrtc/crates/stun/message.rs:260-298 | the attribute loop returns the parsed attributes and whether it reached the end |
| `Stun.DecodeUndoesBuild` | client/src/webrtc/crates/stun/message.rs:227-301 | decoding a built message whose length fits 16 bits gives back length, transaction id, attributes and type, old attribute types translated |
| `Stun.RoundTripExact` | client/src/webrtc/crates/stun/message.rs:227-301 | a built message comes back equal if and only if its attributes total at most 65535 bytes, its method has twelve bits, its class two, and no attribute is typed 0x8020 |
| `StunIntegrity.Build` | client/src/webrtc/crates/stun/message.rs:340-347 | reset, header and setters in order up to the first error |
| `StunIntegrity.BuildMeans` | client/src/webrtc/crates/stun/message.rs:340-347 | after any setters, refused ones included, the buffer is the header and the padded attributes, its size 20 plus the length, a multiple of 4, and it round-trips under the exact condition |
| `StunIntegrity.BuiltIs` | client/src/webrtc/crates/stun/message.rs:340-347 | a message that is built holds, for each setter that adds an attribute, in order, one of its type and with its value, and the type and transaction id set last |
| `StunIntegrity.BuildsExactly` | client/src/webrtc/crates/stun/message.rs:340-347 | for every list of setters: building succeeds if and only if no text attribute is of another type than the four or too long, and no integrity tag comes behind a fingerprint |
| `StunIntegrity.AddIntegrity` | client/src/webrtc/crates/stun/integrity.rs:33-54 | the length announced, the buffer digested, the length restored and the attribute added, or an error behind a fingerprint |
| `StunIntegrity.Check` | client/src/webrtc/crates/stun/integrity.rs:69-98 | the loop sums what stands behind the first MESSAGE-INTEGRITY, the length is lowered for the digest and restored |
| `StunIntegrity.CheckMeans` | client/src/webrtc/crates/stun/integrity.rs:69-98 | on a built message or a copy parsed from it check succeeds if and only if the attribute is the tag of the bytes before it under a header whose length ends with it, and it changes nothing |
| `StunIntegrity.DigestedLayout` | client/src/webrtc/crates/stun/integrity.rs:33-98 | the bytes before it, in terms of the buffer: all in front of the attribute, with a length field that counts up to its end |
| `StunIntegrity.CheckOnParsed` | client/src/webrtc/crates/stun/integrity.rs:69-98 | the same of every message that decode accepts, whatever its padding, type bits and attributes: check stays in the buffer, and succeeds if and only if the first MESSAGE-INTEGRITY is the tag of the received bytes before it |
| `StunIntegrity.IntegrityVerifies` | client/src/webrtc/crates/stun/integrity.rs:33-98 | after adding integrity and then any attributes, check with the key succeeds on the message and on its decoded copy, digests the bytes add_to digested and leaves both unchanged; with another key it succeeds only if the tags collide |
| `StunIntegrity.AddFingerprint` | client/src/webrtc/crates/stun/fingerprint.rs:36-46 | the length announced, the CRC taken, the length restored and the attribute added |
| `StunIntegrity.FingerprintAdded` | client/src/webrtc/crates/stun/fingerprint.rs:29-46 | the attribute is the XORed CRC of the final bytes before it |
| `StunIntegrity.FingerprintCoversTheMessage` | client/src/webrtc/crates/stun/fingerprint.rs:29-46 | and so after any build that ends with FINGERPRINT |
| `StunIntegrity.Get` | client/src/webrtc/crates/stun/attributes.rs:15-23 | the first attribute of the type |
| `IceCandidate.PriorityFits` | client/src/webrtc/crates/ice/candidate/mod.rs:256-268 | for all 32-bit priorities the formula is below 2^64, and is 2^64-1 exactly when both are maximal |
| `IceCandidate.PriorityRanks` | client/src/webrtc/crates/ice/candidate/mod.rs:256-268 | for priorities from 1 to 2^31 it orders pairs by smaller priority, larger priority, then G>D, as the formula of section 6.1.2.3 of RFC 8445 does |
| `IceCandidate.RankAlikeExactly` | client/src/webrtc/crates/ice/candidate/mod.rs:256-268 | with priorities up to 2^31 two pairs rank as the standard ranks them for the agent's role unless they are between the same two different priorities and one remembers another role, or both do and the priorities are the other way round: exactly then not |
| `IceCandidate.RanksExactly` | client/src/webrtc/crates/ice/candidate/mod.rs:234-268 | all pairs with priorities up to a limit rank as the standard does for the agent's role if and only if the limit is at most 2^31 and the roles they remember are the agent's, or the limit is 1 |
| `IceCandidate.RankingFailsAbove31Bits` | client/src/webrtc/crates/ice/candidate/mod.rs:256-268 | for either role, two pairs with current roles at which the orders part |
| `IceCandidate.StaleRolesReverse` | client/src/webrtc/crates/ice/candidate/mod.rs:234-268 | two pairs that remember another role and rank the other way round, with priorities 5 and 3 |
| `IceCandidate.EndsAgreeExactly` | client/src/webrtc/crates/ice/candidate/mod.rs:234-268 | the two ends give a pair the same priority if and only if they remember opposite roles or its candidates have equal priorities |
| `IceCandidate.StaleOnOneSide` | client/src/webrtc/crates/ice/candidate/mod.rs:234-268 | for two agents in opposite roles: if and only if the pair is stale at both ends or at neither, or the priorities are equal |
| `IceCandidate.Best` | client/src/webrtc/crates/ice/agent/agent_transport.rs:111-151 | the pair returned is the earliest eligible one that no eligible pair outranks, none only if none is eligible |
| `IceCandidate.BestIsUnique` | client/src/webrtc/crates/ice/agent/agent_transport.rs:111-151 | only one pair has that property |
| `IceCandidate.BestIsTheStandards` | client/src/webrtc/crates/ice/agent/agent_transport.rs:111-151 | with current roles and priorities up to 2^31 that pair is the standard's best |
| `IceCandidate.GetBestAvailableCandidatePair` | client/src/webrtc/crates/ice/agent/agent_transport.rs:111-130 | the loop over pairs that have not failed returns that pair |
| `IceCandidate.GetBestValidCandidatePair` | client/src/webrtc/crates/ice/agent/agent_transport.rs:132-151 | the loop over succeeded pairs returns that pair |
| `IceCandidate.CandidatePriority` | client/src/webrtc/crates/ice/candidate/candidate_base.rs:164-178 | a candidate without an override has a priority from 1 to 2^31-1 |
| `IceCandidate.CandidatePriorityIs` | client/src/webrtc/crates/ice/candidate/candidate_base.rs:164-178 | the three parts of the formula in the bits they fill; a host candidate of the first component has 2130706431 |
| `IceCandidate.EqualExactly` | client/src/webrtc/crates/ice/candidate/candidate_base.rs:260-266 | two candidates are equal if and only if they are the same but for component and priority |
| `IceAgent.Agent.AddRemoteCandidate` | client/src/webrtc/crates/ice/agent/agent_internal.rs:515-548 | a candidate unequal to the known ones is filed and paired with every local candidate of its network type |
| `IceAgent.Agent.AddCandidate` | client/src/webrtc/crates/ice/agent/agent_internal.rs:550-608 | the same for a local candidate |
| `IceAgent.Agent.PingAllCandidates` | client/src/webrtc/crates/ice/agent/agent_internal.rs:358-403 | waiting pairs turn in-progress, pairs over the limit fail, the others are counted and sent a request |
| `IceAgent.Agent.HandleInboundBindingSuccess` | client/src/webrtc/crates/ice/agent/agent_internal.rs:802-817 | the first unexpired request with the id is removed and returned |
| `IceAgent.Agent.ValidateSelectedPair` | client/src/webrtc/crates/ice/agent/agent_internal.rs:435-472 | failed, disconnected or connected by how long the selected pair has been silent |
| `IceAgent.Agent.Contact` | client/src/webrtc/crates/ice/agent/agent_internal.rs:198-230 | one round of the check loop, timing of the checking state included |
| `IceAgent.Agent.ContactAsControlling` | client/src/webrtc/crates/ice/agent/agent_selector.rs:207-253 | keepalive, nomination repeated, a new nomination of the best valid pair, or checks |
| `IceAgent.Agent.HandleSuccessResponse` | client/src/webrtc/crates/ice/agent/agent_selector.rs:285-333 | the pair succeeds if the response comes from where the request went; a controlling agent selects it only for a USE-CANDIDATE request and only once |
| `IceAgent.Agent.HandleBindingRequestControlling` | client/src/webrtc/crates/ice/agent/agent_selector.rs:335-386 | an unknown pair is added; a succeeded pair that is the best available is nominated |
| `IceAgent.Agent.HandleBindingRequestControlled` | client/src/webrtc/crates/ice/agent/agent_selector.rs:483-523 | an unknown pair is added; a succeeded pair is selected on USE-CANDIDATE, any other is checked |
| `IceAgent.Agent.HandleInbound` | client/src/webrtc/crates/ice/agent/agent_internal.rs:820-939 | role conflicts, unauthentic messages and unknown remotes are dropped, the rest dispatched by class and role |
| `IceAgent.Agent.StartConnectivityChecks` | client/src/webrtc/crates/ice/agent/agent_internal.rs:160-196 | the role is taken once, and the state becomes checking |
| `IceAgent.Agent.Restart` | client/src/webrtc/crates/ice/agent/mod.rs:287-347 | requests, checklist, selection, candidates and a controlling nomination are cleared, or an error leaves all as it was |
| `IceSafety.SelectedPairIsSafe` | client/src/webrtc/crates/ice/agent/agent_internal.rs:322-356 | in every reachable state a selected pair is in the checklist, Succeeded and nominated, exists whenever Connected or Disconnected, and in the controlling role has the nominated pair's remote address, as has every pending USE-CANDIDATE request |
| `IceSafety.SelectedStaysUntilRestart` | client/src/webrtc/crates/ice/agent/agent_selector.rs:285-386 | as long as no restart succeeds the selected and the nominated pair never change and succeeded pairs stay succeeded |
| `IceSafety.StepKeeps` | client/src/webrtc/crates/ice/agent/agent_internal.rs:820-939 | every single step keeps all of this |
| `IceSafety.UnansweredPairFails` | client/src/webrtc/crates/ice/agent/agent_internal.rs:376-402 | an unanswered pair is checked one time more than the limit and then fails, unless the limit is 65535, where the count wraps |
| `IceEffects.SelectsExactly` | client/src/webrtc/crates/ice/agent/agent_selector.rs:285-523 | an agent with no pair selected selects one if and only if, controlled, it is asked by an authentic request with USE-CANDIDATE, from a known remote and not from a controlled agent, to use a pair that has succeeded, or, controlling, an admitted response from its destination answers an unexpired USE-CANDIDATE request and its pair is found; that pair is then selected, nominated and succeeded and the agent connected, and nothing else has changed but what is pending |
| `IceEffects.NominatesExactly` | client/src/webrtc/crates/ice/agent/agent_selector.rs:207-386 | and nominates one if and only if a round finds the earliest best succeeded pair acceptable, or an admitted request is for the earliest best available pair, succeeded and acceptable |
| `IceEffects.PairExactly` | client/src/webrtc/crates/ice/agent/agent_internal.rs:358-403 | after any step but a restart a pair has succeeded if and only if it had or is answered now; it has failed if and only if it had and is not answered, or a round finds it unanswered and asked too often; it has been counted if and only if a round asks it again |
| `IceEffects.ConnectionExactly` | client/src/webrtc/crates/ice/agent/agent_internal.rs:198-230 | the connection state after a round: failed on the checking timeout or on silence beyond both timeouts, disconnected on silence beyond one, connected with a pair selected, else as it was |
| `IceEffects.KeepsAliveExactly` | client/src/webrtc/crates/ice/agent/agent_internal.rs:477-508 | with a pair selected a round sends one request, to that pair, if and only if it has been idle or silent for the interval, and a lite controlled agent none |
| `IceEffects.ControllingRound` | client/src/webrtc/crates/ice/agent/agent_selector.rs:207-253 | with none selected a controlling agent asks for the nominated pair again, or nominates and asks, or sends a request to each unanswered pair within the limit, in order |
| `IceEffects.ControlledRound` | client/src/webrtc/crates/ice/agent/agent_selector.rs:393-405 | a controlled one sends these requests, or none if it is lite |
| `IceEffects.ControlledEffect` | client/src/webrtc/crates/ice/agent/agent_selector.rs:483-523 | an admitted request to a controlled agent selects, or changes nothing if a pair was selected, or is answered by a check of the pair, which is added if it is new |
| `IceEffects.ControllingEffect` | client/src/webrtc/crates/ice/agent/agent_selector.rs:335-386 | to a controlling one it adds a new pair, or nominates and asks for the pair, or changes nothing |
| `IceEffects.ResponseClears` | client/src/webrtc/crates/ice/agent/agent_internal.rs:774-817 | an admitted response takes the first unexpired request with its id off the list, and all that have expired |
| `IceEffects.OthersAreIgnored` | client/src/webrtc/crates/ice/agent/agent_internal.rs:820-939 | whatever else arrives changes nothing |
| `IceEffects.NewPairsAreFresh` | client/src/webrtc/crates/ice/agent/agent_internal.rs:405-417 | a pair is formed only for a candidate or by a request of an unknown pair, and waits, unasked, not nominated, with the agent's role |
| `IceEffects.StartExactly` | client/src/webrtc/crates/ice/agent/agent_internal.rs:160-196 | an agent is started if and only if it was not, is not closed and has both credentials, and what is set then |
| `IceEffects.RestartExactly` | client/src/webrtc/crates/ice/agent/mod.rs:287-347 | a restart is accepted if and only if the credentials are long enough and it is neither gathering nor closed, and leaves no candidates, pairs, requests, nomination or selection |
| `IceEffects.CloseExactly` | client/src/webrtc/crates/ice/agent/agent_internal.rs:610-648 | helper: an agent is closed once, and then has no candidates |
| `IceRoles.RolesAfterStep` | client/src/webrtc/crates/ice/agent/agent_internal.rs:160-196 | after an accepted start every pair remembers the agent's role if and only if all remembered the role it was started in; a restart makes it so; every other step leaves it as it was |
| `IceRoles.RolesCurrentExactly` | client/src/webrtc/crates/ice/agent/agent_internal.rs:405-417 | in every run of a new agent all pairs remember its role unless it was started in another role when it had pairs, and no restart has succeeded since: exactly then not |
| `IceRoles.RunRanksAsStandard` | client/src/webrtc/crates/ice/agent/agent_internal.rs:405-417 | so in every other run the pairs of the checklist with priorities up to 2^31 rank as the standard has it |
| `IceRoles.StaleRun` | client/src/webrtc/crates/ice/agent/agent_internal.rs:160-196 | a run that ends stale: candidates added to an agent made as controlled, then the start as controlling; a pair has another priority than at the other end, and two pairs rank against the standard |
| `IceChecklist.ChecklistIsCrossProduct` | client/src/webrtc/crates/ice/agent/agent_internal.rs:405-608 | in every run, any order, with duplicates and binding requests between known candidates, the checklist has exactly one pair per local and remote candidate of the same network type, until candidates are deleted, and again from the next restart |
| `IceChecklist.FreshAgentIsCrossProduct` | client/src/webrtc/crates/ice/agent/agent_internal.rs:405-608 | the same from a new agent |
| `IceChecklist.KnownPair` | client/src/webrtc/crates/ice/agent/agent_selector.rs:335-386 | a binding request between known candidates finds its pair and adds none |
| `IceChecklist.NominatesOnlyTheBest` | client/src/webrtc/crates/ice/agent/agent_selector.rs:207-386 | only a controlling agent without a selection nominates: the earliest best succeeded pair on a timer, on a request the requested succeeded pair if it is the earliest best that has not failed, both candidates having waited long enough |
| `IceChecklist.SelectsTheNominatedExactly` | client/src/webrtc/crates/ice/agent/agent_selector.rs:285-333 | a controlling agent selects only on a response from the nominated pair's remote address, and it selects the nominated pair if and only if that is the pair of the candidates the response was read on and found at |
| `IceExample.AnotherPairIsSelected` | client/src/webrtc/crates/ice/agent/agent_selector.rs:285-333 | a run in which it selects another pair: the answer to the nominating request is read on another local candidate |
| `IceExample.ControlledAgentConnects` | client/src/webrtc/crates/ice/agent/agent_selector.rs:393-523 | a run of a controlled agent from its creation to Connected with its pair selected |
| `Signaling.SetDescriptionKeeps` | client/src/webrtc/peer_connection/mod.rs:308-529 | one call keeps pending and current descriptions consistent with the signaling state; a rejected call changes nothing |
| `Signaling.AcceptedExactly` | client/src/webrtc/peer_connection/signaling_state.rs:123-212 | helper: which calls are accepted, state by state |
| `Signaling.RefusedFor` | client/src/webrtc/peer_connection/mod.rs:308-529 | helper: which error a refused call gets |
| `Signaling.PendingFixesState` | client/src/webrtc/peer_connection/mod.rs:308-529 | the types of the pending descriptions and the signaling state determine each other |
| `Signaling.RollbackIsRejected` | client/src/webrtc/peer_connection/signaling_state.rs:129-132 | rollback is refused in every state |
| `Signaling.RunsAreConsistent` | client/src/webrtc/peer_connection/mod.rs:308-620 | in every reachable state; stable means none pending and either no current descriptions or a local offer with a remote answer |
| `Signaling.NewConnectionIsConsistent` | client/src/webrtc/peer_connection/mod.rs:308-620 | and so in every run of a new connection |
| `Signaling.RemoteOfferIsFinal` | client/src/webrtc/peer_connection/mod.rs:352-405 | since no answer is ever created, a connection that was set a remote offer accepts nothing more |
| `Signaling.FailedRemoteMayHaveSet` | client/src/webrtc/peer_connection/mod.rs:568-618 | a failing set_remote_description has changed the state if and only if only the transport details were refused |
| `Signaling.PeerConnection.SetDescription` | client/src/webrtc/peer_connection/mod.rs:308-529 | the branches of set_description in place |
| `Signaling.AcceptedBecomes` | client/src/webrtc/peer_connection/mod.rs:308-529 | an accepted answer is current on its side, the offer that was pending on the other side is current there, and nothing is pending; an accepted offer or provisional answer is pending on its side and moves nothing else |
| `Signaling.DescriptionsAreTheLastSet` | client/src/webrtc/peer_connection/mod.rs:308-620 | over any calls to a new connection: the current descriptions are the last answer set and the last offer before it, the pending ones the last offer, if no answer was set since, and the last provisional answer to it |
| `Signaling.PeerConnection.SetLocalDescriptionOf` | client/src/webrtc/peer_connection/mod.rs:532-559 | an empty offer is replaced by the last one, any other empty description refused, and the rest set |
| `Signaling.PeerConnection.SetRemoteDescriptionOf` | client/src/webrtc/peer_connection/mod.rs:573-618 | the description set, and its transport details read only afterwards |

## Left out

- Encryption: records are modelled after decryption; the cipher is the identity and whether a packet is encrypted does not change its bytes.
- The replay detector and the queue for records ahead of the remote epoch: a record counts as arrived, or heard, once it has passed both; repeated, dropped and late records are covered by arbitrary lists of arrivals.
- Sockets, tasks, channels and timers: nondeterministic events and atomic steps; interleavings inside one handler are not modelled.
- Integer widths of lengths and counters in memory (`u32`, `usize`, the `u64` record counter) beyond the field they are written to: unbounded, the cut to the wire field is explicit.
- The inbound read buffer's size limit: datagrams are read whole.
- FragmentBuffer.FragmentBuffer.Pop: called only where the source returns; that it does not is the third outcome of the specification, and `FragmentBuffer.AssembleFollowsChain` says when. The same goes for `AppendMessage` and `Conn.Reader.HandleHandshakeRecord`.
- Delivery.DeliveryExact: fewer than 65536 messages, since message numbers are 16 bits and would wrap.
- Handshake message bodies other than the hellos: opaque bytes with an acceptance predicate.
- Certificates: peer certificates of the client and the choice among local ones; the checks on them are parameters.
- Flights 0 and 2, the generation of flight 4 and the parsing of flight 6: the server is modelled for what the transcript needs. What its flight 4 consists of is a hypothesis of `EndToEnd`: ServerHelloDone comes last; and, in `ExchangeText`, its messages are numbered in the order of section 7.3 of RFC 5246.
- EndToEnd.ServerSeesFlight5: that every message body on the two lists is one its parser accepts is a hypothesis; so is, in `EndToEnd.HandshakeCompletes`, a receive sequence below 65536.
- Key pairs and signatures: drawn afresh by the original each time; here key agreement and signing are functions, and doing either again gives the same.
- The step that resends a last flight (`finish`): the model of the handshake ends where the loop returns, the first time it is in the Finished state.
- Resumption from a serialized state: a handshake starts at flight 1 with initial epoch 0.
- Transcript.Flight5HashesTheFuture: the send sequence plus the flight fits 16 bits, since a message number that wraps would collide in the cache.
- EndToEnd.SecretsAgree: that both sides compute the same pre-master secret is a hypothesis, a property of the key agreement.
- STUN attributes with a structure of their own (addresses, error codes): their setters add one raw attribute, which is modelled.
- Candidate addresses are canonical texts, so that a candidate's address is its socket's; mDNS names and their resolution are not modelled.
- A candidate component above 256: debug builds of the original stop on it, the model computes on.
- Replies of the ICE agent: only state is modelled, not the binding responses it sends.
- IceSafety.SelectedPairIsSafe: the time since traffic was heard is an input of the step, not tracked per candidate.
- Gathering, interfaces, NAT mapping, TURN, data channels, SCTP, SDP parsing and generation: plumbing around this core, or unseen code.
- Closing a peer connection: nothing in the source sets its closed flag; calls on a closed connection are modelled as refused.
