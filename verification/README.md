# Protocol and encoding core, modelled in Dafny

This project models the hardest code that the Pindex application carries among its dependencies and proves
what that code is for: BoringSSL's TLS 1.2 and DTLS 1.2 handshakes, its TLS record writing and reading, its
session format and its reference counts, and the nanopb encoder and decoder for Protocol Buffers. The Swift
application itself is user interface and network calls and is not modelled.

`dafny verify dfyconfig.toml` verifies everything. Most parts have two layers. A layer of values says what the
code means: datatypes, functions and lemmas about them. A layer of classes and methods has the form of the
source, with fields updated in place, buffers as arrays, loops with invariants, and every method proved against
the first layer.

| files | what they model |
|---|---|
| `TlsScript`, `TlsEndpoint`, `TlsClient`, `TlsServer`, `TlsClientSteps`, `TlsServerSteps`, `TlsPair`, `TlsProgress`, `TlsDriver`, `TlsOrder`, `TlsAloneClient`, `TlsAloneServer` | the two TLS 1.2 handshake state machines over two channels and against any peer, and the loop around each (section 7.3 of RFC 5246, section 3.3 of RFC 5077) |
| `TlsBuffer`, `TlsWriter`, `TlsReader` | writing records over a transport that may block, and gathering handshake messages from records |
| `TlsCipherChoice`, `TlsPremaster` | the server's cipher choice, and the branch-free check of an RSA premaster |
| `DtlsMask`, `DtlsFragment`, `DtlsIncoming`, `DtlsReceiver`, `DtlsRuns` | reassembly of DTLS handshake messages (section 4.2.3 of RFC 6347) |
| `DtlsFlight`, `DtlsPacking`, `DtlsSender`, `DtlsWriter` | fragmenting and retransmitting flights, and record numbers |
| `DtlsReplay`, `DtlsTimer` | the replay window (section 4.1.2.6 of RFC 6347) and the retransmission timer (section 4.2.4.1) |
| `PbWire`, `PbVarint32`, `PbModel`, `PbWireType`, `PbRoundTrip`, `PbComplete`, `PbMerge` | the wire format and what encoding and decoding mean |
| `PbGrammar`, `PbRecords`, `PbTyped` | the bytes that are encoded and the bytes that are decoded, said without the encoder and the decoder |
| `PbEncode`, `PbIter`, `PbDecode` | the encoder, the descriptor cursor and the decoder |
| `SslSession`, `SslSessionIo`, `SslSessionForm` | the session printer and parser, and the form of a printed session |
| `RefCount`, `RefCountLock` | the two implementations of the saturating reference count |
| `Prelude`, `Bits` | an option type, bytes, and facts about binary numbers |

The main results, one for each part:

* Handshake: for every configuration of resumption and optional messages and every interleaving, neither side
  fails, the two cannot deadlock, the run is bounded and ends with both sides done, and the transcripts agree
  wherever they are used (`NoFailure`, `TranscriptsAgree`, `FinishedChecks`, `HandshakeCompletes`). Each side alone,
  against any peer, can be led neither to skip or repeat a message or a ChangeCipherSpec, nor to finish without
  the peer's Finished over exactly what it said and heard, and says and takes only what the negotiated choices
  allow; and it refuses nothing that belongs where it is (`AgainstAnyPeer`, `RefusedForCause`, each once for each side).
* DTLS: whatever the network does to an honest sender's fragments, messages are delivered in order, once, and
  unchanged (`InOrderDelivery`); what a sender sends tiles its messages and is honest in that sense
  (`SendFlight`, `Tiled`, `FragmentsHonest`, `FlightArrives`, `FlightIsRead`); records are numbered one by one, no
  number is used twice (`NumberedInOrder`, `PairsUnique`) or accepted twice, and every new record is accepted
  (`NeverTwice`, `AcceptedWhenNew`).
* nanopb: what is encoded is the wire grammar's bytes for the message (`MessageIs`, `NotSentIff`), and any bytes are
  decoded exactly if they are records of that grammar that fit the descriptor, to what those records say
  (`DecodedIff`), which always fits its storage, with the last member of a union the only one (`DecodedTyped`,
  `LastOneWins`). Encoding and decoding are inverse (`Identity`, `WholeRoundTrip`, `RoundTrip`), unknown fields are
  skipped exactly, at every depth (`ReaderSchema`), concatenation is merging (`ConcatIsMerge`), and the sizing pass agrees with
  the writing pass (`EncodeToBuffer`, `GetEncodedSize`, `EncodeSubmessage`).
* TLS records: whatever the transport blocks, plaintext is sealed once and in order and the bytes sent are a
  prefix of the bytes sealed, as long as the write buffer is the queue it is meant to be (`WriteAppData`,
  `WriteRetried`, `FlushFlight`, `StraightIff`), and a write that can go on is complete once the transport takes
  enough; messages are read back whole and in
  order however they were cut (`InOrder`).
* Session: parsing is the inverse of printing for every pattern of optional fields (`RoundTrip`), and accepts
  exactly the elements that have the form of a session (`ParseIff`, `PrintIs`).
* Cipher choice and premaster: the loops compute their declarative optimum and the plain padding check
  (`ServerChoose`, `SelectPremaster`).
* Reference counts: both implementations refine one atomic counter in every interleaving (`CasRefines`,
  `LockRefines`), so only the last decrement returns one, and a thread left alone ends its call (`CasFinishes`,
  `LockFinishes`).

Where the code does not do what its comments or callers may expect, the model follows the code, and for each
property that fails there is an input on which it does and the exact condition under which it holds:

* A DTLS fragment seven ahead of the next message is called too far in the future and said to be ignored, but
  only larger distances are ignored; this one is an error (`d1_both.cc:380-385` and `267-271`). `ArriveGood`
  gives the exact condition, `SevenAheadFails` an instance.
* When sealing fails behind items that are already in the packet, the cursor of the flight stays behind what was
  sealed and never sent (`d1_both.cc:782-817`), so that those stretches are lost. `LosesIff` and `SendFlight` say
  that this is the only way the tiling is lost, `SealableNeverFails` when it cannot happen, and `BigPacketLoses`
  that with an MTU above 64K it does.
* After the MTU update the code asserts that the MTU is at least the minimum, which the option not to query the
  MTU makes false (`d1_both.cc:615-632`). `UpdateMtu` and `MtuAsserted` say exactly when.
* The write buffer keeps its offset in 16 bits and allocates up to 2^16 - 1 bytes behind an alignment offset of up
  to seven (`ssl_buffer.cc:47-97`), so the offset can wrap before the buffer is empty and other bytes are then
  written. `QueueIff` and `StraightIff` say exactly when the buffer is a queue, `RoomIff` which sizes matter, and
  `WrapLoses` is the failure; every statement about the write path says what it needs of this.
* The 32-bit varint reader is to refuse values that do not fit, but accepts some oversized encodings as their
  low bits (`pb_decode.c:216-237`). `Varint32Iff` says which byte strings it accepts and as what, `ReadValue` when
  that is the number or its sign extension, and `Varint32OfWord` which of the words that an encoder writes it
  cuts; `OversizedAccepted` is one.
* A string that fills its array encodes and does not decode (`pb_encode.c:847`, `pb_decode.c:1454`).
  `FullStringFails` is the smallest case; `WholeRoundTrip` says that this is the only way a message shorter
  than four gigabytes fails to round trip.
* The type of a field that is not repeated is not compared with the wire type (`pb_decode.c:401-475`).
  `WireTypeIff` says exactly when two wire types are told apart, `WrongWireTypeDecodes` shows one that is not.
* A session with a negative verify result is printed as a number that the parser refuses
  (`ssl_asn1.cc:245-251`, `488-499`); `RoundTrip` has this in its condition, and `NegativeFails` is an instance.

## Model

| member | source | states |
|---|---|---|
| `TlsPair.NoFailure` | Pindex/Pods/BoringSSL-GRPC/ssl/handshake_server.cc:1539-1621 | For every interleaving of the two sides, full or resumed and with any choice of optional messages, neither side meets an unexpected message, a bad signature or a wrong Finished |
| `TlsPair.StepInv` | Pindex/Pods/BoringSSL-GRPC/ssl/handshake_client.cc:1707-1789 | Each step of either side keeps the joint invariant: each side at its place of the one message order, its transcript the order's so far, and the channels carrying exactly what lies between the two places |
| `TlsPair.TranscriptsAgree` | Pindex/Pods/BoringSSL-GRPC/ssl/handshake.cc:380-476 | In every reachable state both master secrets come from the same transcript; at the CertificateVerify both sides still have that transcript in full; at the end hashes and secrets are equal |
| `TlsPair.FinishedChecks` | Pindex/Pods/BoringSSL-GRPC/ssl/handshake.cc:380-429 | A Finished that reaches its reader was made over exactly the transcript the reader then has, with the reader's secret |
| `TlsPair.OneTranscript` | Pindex/Pods/BoringSSL-GRPC/ssl/handshake.cc:215-222 | At every moment of every run one side's transcript is a prefix of the other's |
| `TlsPair.NoDeadlock` | Pindex/Pods/BoringSSL-GRPC/ssl/handshake.cc:491-628 | In every reachable state one side can move or both are done |
| `TlsProgress.StepCloser` | Pindex/Pods/BoringSSL-GRPC/ssl/handshake_client.cc:1707-1789 | Every step of a side that can move strictly decreases a measure built from a rank of the states that depends on resumption, since the states run out of declaration order |
| `TlsProgress.MovingBound` | Pindex/Pods/BoringSSL-GRPC/ssl/handshake.cc:491-628 | The number of moves in any run is bounded by the drop in that measure |
| `TlsProgress.HandshakeCompletes` | Pindex/Pods/BoringSSL-GRPC/ssl/handshake_server.cc:1539-1621 | Every run that moves only sides that can move is bounded, and when neither can move both are done with equal transcripts and equal secrets |
| `TlsProgress.CanComplete` | Pindex/Pods/BoringSSL-GRPC/ssl/handshake_server.cc:1539-1621 | From any state the pair can be in, some schedule brings both sides to the end |
| `TlsDriver.RunClient` | Pindex/Pods/BoringSSL-GRPC/ssl/handshake.cc:491-628 | The loop around the client's machine terminates, what it does is a sequence of client moves of the pair, and it stops only done, failed, or blocked on the transport |
| `TlsDriver.RunServer` | Pindex/Pods/BoringSSL-GRPC/ssl/handshake.cc:491-628 | The same for the loop around the server's machine |
| `TlsDriver.ResolveClient` | Pindex/Pods/BoringSSL-GRPC/ssl/handshake.cc:491-600 | Resolving what the client waits for is a sequence of pair moves; the machine is run again only when the wait is over or a message is there |
| `TlsDriver.ResolveServer` | Pindex/Pods/BoringSSL-GRPC/ssl/handshake.cc:491-600 | The same for the server |
| `TlsDriver.ClientRunIsMoves` | Pindex/Pods/BoringSSL-GRPC/ssl/handshake_client.cc:1707-1789 | Running the client's machine to its next wait is some number of client moves of the pair |
| `TlsDriver.ServerRunIsMoves` | Pindex/Pods/BoringSSL-GRPC/ssl/handshake_server.cc:1539-1621 | Running the server's machine to its next wait is some number of server moves of the pair |
| `TlsDriver.MovesSucceed` | Pindex/Pods/BoringSSL-GRPC/ssl/handshake.cc:491-628 | From any state the pair can be in, no number of moves by one side makes either side fail |
| `TlsScript.WireSend` | Pindex/Pods/BoringSSL-GRPC/ssl/handshake_server.cc:686-752 | Sending what comes next in the order, as the side whose turn it is, keeps the channels carrying what lies between the places |
| `TlsScript.WireReceive` | Pindex/Pods/BoringSSL-GRPC/ssl/handshake_client.cc:535-759 | What is there to be read is what comes next in the order, and reading it keeps the channels right |
| `TlsScript.WireSkip` | Pindex/Pods/BoringSSL-GRPC/ssl/handshake_client.cc:821-869 | Passing over an optional message that is absent keeps the channels right |
| `TlsScript.NextIsMessage` | Pindex/Pods/BoringSSL-GRPC/ssl/handshake.cc:491-560 | Up to a message that is always sent, with no ChangeCipherSpec on the way, what arrives next is a handshake message |
| `TlsClient.ClientHandshake.Handshake` | Pindex/Pods/BoringSSL-GRPC/ssl/handshake_client.cc:1707-1789 | The state loop stops exactly at the first state that must wait, has failed, or is done, in the state and with the input that running the states one after the other gives |
| `TlsServer.ServerHandshake.Handshake` | Pindex/Pods/BoringSSL-GRPC/ssl/handshake_server.cc:1539-1621 | The state loop stops exactly at the first state that must wait, has failed, or is done, in the state and with the input that running the states one after the other gives |
| `TlsClient.OneMessage` | Pindex/Pods/BoringSSL-GRPC/ssl/handshake_client.cc:535-1672 | Every state of the client that reads waits only while there is no message and fails only over one that is there, and then nothing has changed; otherwise the input lost exactly the message at its front and the transcript grew by exactly that, or, when an optional one is passed over, neither |
| `TlsServer.OneMessage` | Pindex/Pods/BoringSSL-GRPC/ssl/handshake_server.cc:432-1461 | The same for every state of the server that reads, where the ClientHello is looked at twice before it is taken |
| `TlsClientSteps.StepHello` | Pindex/Pods/BoringSSL-GRPC/ssl/handshake_client.cc:385-759 | The client's part of the invariant is kept by the states up to the ServerHello, wherever the server is: so no message is unexpected there |
| `TlsClientSteps.StepServerCertificate` | Pindex/Pods/BoringSSL-GRPC/ssl/handshake_client.cc:771-819 | The client's part of the invariant is kept by reading the server's Certificate, wherever the server is: so no message is unexpected there |
| `TlsClientSteps.StepCertificateStatus` | Pindex/Pods/BoringSSL-GRPC/ssl/handshake_client.cc:821-869 | The client's part of the invariant is kept by reading the optional status, wherever the server is: so no message is unexpected there |
| `TlsClientSteps.StepServerKeyExchange` | Pindex/Pods/BoringSSL-GRPC/ssl/handshake_client.cc:871-1071 | The client's part of the invariant is kept by verifying the certificate and reading the optional ServerKeyExchange, wherever the server is: so no message is unexpected there |
| `TlsClientSteps.StepCertificateRequest` | Pindex/Pods/BoringSSL-GRPC/ssl/handshake_client.cc:1073-1143 | The client's part of the invariant is kept by reading the optional CertificateRequest, wherever the server is: so no message is unexpected there |
| `TlsClientSteps.StepServerHelloDone` | Pindex/Pods/BoringSSL-GRPC/ssl/handshake_client.cc:1145-1167 | The client's part of the invariant is kept by reading ServerHelloDone, wherever the server is: so no message is unexpected there |
| `TlsClientSteps.StepClientCertificate` | Pindex/Pods/BoringSSL-GRPC/ssl/handshake_client.cc:1169-1215 | The client's part of the invariant is kept by answering a CertificateRequest, wherever the server is: so no message is unexpected there |
| `TlsClientSteps.StepClientKeyExchange` | Pindex/Pods/BoringSSL-GRPC/ssl/handshake_client.cc:1220-1371 | The client's part of the invariant is kept by sending the key exchange, wherever the server is: so no message is unexpected there |
| `TlsClientSteps.StepCertificateVerify` | Pindex/Pods/BoringSSL-GRPC/ssl/handshake_client.cc:1373-1455 | The client's part of the invariant is kept by signing, wherever the server is: so no message is unexpected there |
| `TlsClientSteps.StepClientFinished` | Pindex/Pods/BoringSSL-GRPC/ssl/handshake_client.cc:1457-1512 | The client's part of the invariant is kept by the client's last flight, wherever the server is: so no message is unexpected there |
| `TlsClientSteps.StepSessionTicket` | Pindex/Pods/BoringSSL-GRPC/ssl/handshake_client.cc:1566-1647 | The client's part of the invariant is kept by reading the optional ticket, wherever the server is: so no message is unexpected there |
| `TlsClientSteps.StepInternal` | Pindex/Pods/BoringSSL-GRPC/ssl/handshake_client.cc:1538-1705 | The client's part of the invariant is kept by the states that send and read nothing, wherever the server is: so no message is unexpected there |
| `TlsClientSteps.StepServerFinished` | Pindex/Pods/BoringSSL-GRPC/ssl/handshake_client.cc:1658-1672 | The client's part of the invariant is kept by checking the server's Finished, wherever the server is: so no message is unexpected there |
| `TlsClientSteps.StepChangeCipherSpec` | Pindex/Pods/BoringSSL-GRPC/ssl/handshake_client.cc:1649-1656 | While the client waits for ChangeCipherSpec, that is what comes |
| `TlsClientSteps.StepAny` | Pindex/Pods/BoringSSL-GRPC/ssl/handshake_client.cc:1707-1789 | No state of the client fails |
| `TlsClientSteps.TurnWhenWaiting` | Pindex/Pods/BoringSSL-GRPC/ssl/handshake_client.cc:1707-1789 | A waiting client waits for the server's turn; a done client leaves nobody a turn |
| `TlsServerSteps.StepClientHello` | Pindex/Pods/BoringSSL-GRPC/ssl/handshake_server.cc:426-684 | The server's part of the invariant is kept by the states that read the ClientHello, wherever the client is: so no message is unexpected there |
| `TlsServerSteps.StepServerHello` | Pindex/Pods/BoringSSL-GRPC/ssl/handshake_server.cc:686-752 | The server's part of the invariant is kept by sending ServerHello, wherever the client is: so no message is unexpected there |
| `TlsServerSteps.StepServerCertificate` | Pindex/Pods/BoringSSL-GRPC/ssl/handshake_server.cc:754-840 | The server's part of the invariant is kept by sending Certificate and status, wherever the client is: so no message is unexpected there |
| `TlsServerSteps.StepServerKeyExchange` | Pindex/Pods/BoringSSL-GRPC/ssl/handshake_server.cc:842-912 | The server's part of the invariant is kept by sending the key exchange, wherever the client is: so no message is unexpected there |
| `TlsServerSteps.StepServerHelloDone` | Pindex/Pods/BoringSSL-GRPC/ssl/handshake_server.cc:914-947 | The server's part of the invariant is kept by ending the server's first flight, wherever the client is: so no message is unexpected there |
| `TlsServerSteps.StepClientCertificate` | Pindex/Pods/BoringSSL-GRPC/ssl/handshake_server.cc:949-1040 | The server's part of the invariant is kept by reading the client's Certificate, wherever the client is: so no message is unexpected there |
| `TlsServerSteps.StepClientKeyExchange` | Pindex/Pods/BoringSSL-GRPC/ssl/handshake_server.cc:1058-1267 | The server's part of the invariant is kept by reading the key exchange, wherever the client is: so no message is unexpected there |
| `TlsServerSteps.StepCertificateVerify` | Pindex/Pods/BoringSSL-GRPC/ssl/handshake_server.cc:1269-1363 | The server's part of the invariant is kept by checking the client's signature, wherever the client is: so no message is unexpected there |
| `TlsServerSteps.StepInternal` | Pindex/Pods/BoringSSL-GRPC/ssl/handshake_server.cc:1042-1056 | The server's part of the invariant is kept by the states that send and read nothing, wherever the client is: so no message is unexpected there |
| `TlsServerSteps.StepNextProto` | Pindex/Pods/BoringSSL-GRPC/ssl/handshake_server.cc:1379-1413 | The server's part of the invariant is kept by reading NextProto, wherever the client is: so no message is unexpected there |
| `TlsServerSteps.StepChannelId` | Pindex/Pods/BoringSSL-GRPC/ssl/handshake_server.cc:1415-1437 | The server's part of the invariant is kept by checking the channel ID, wherever the client is: so no message is unexpected there |
| `TlsServerSteps.StepClientFinished` | Pindex/Pods/BoringSSL-GRPC/ssl/handshake_server.cc:1439-1461 | The server's part of the invariant is kept by checking the client's Finished, wherever the client is: so no message is unexpected there |
| `TlsServerSteps.StepServerFinished` | Pindex/Pods/BoringSSL-GRPC/ssl/handshake_server.cc:1463-1509 | The server's part of the invariant is kept by the server's last flight, wherever the client is: so no message is unexpected there |
| `TlsServerSteps.StepChangeCipherSpec` | Pindex/Pods/BoringSSL-GRPC/ssl/handshake_server.cc:1365-1377 | While the server waits for ChangeCipherSpec, that is what comes |
| `TlsServerSteps.StepAny` | Pindex/Pods/BoringSSL-GRPC/ssl/handshake_server.cc:1539-1621 | No state of the server fails |
| `TlsServerSteps.TurnWhenWaiting` | Pindex/Pods/BoringSSL-GRPC/ssl/handshake_server.cc:1539-1621 | A waiting server waits for the client's turn; a done server leaves nobody a turn |
| `TlsAloneClient.AgainstAnyPeer` | Pindex/Pods/BoringSSL-GRPC/ssl/handshake_client.cc:1707-1789 | Against any peer, whatever arrives and when: the transcript is exactly what the client has said and taken in, in the order of the protocol with the ChangeCipherSpecs in their places, nothing twice and each from the right side; every Finished in it, sent or received, is the MAC of all before it under the client's secret, which is the session's or derived from all up to the ClientKeyExchange; nothing is in it that what was negotiated does not allow, such as a ServerKeyExchange under a cipher with certificates that does not call for one, and a certificate is only sent if the log has a request. If the client gets to its end, nothing that is due was skipped, a server with certificates has shown one that is not empty, and behind the peer's ChangeCipherSpec has come its Finished over all that went before |
| `TlsAloneClient.RefusedForCause` | Pindex/Pods/BoringSSL-GRPC/ssl/handshake_client.cc:1707-1789 | The client fails only over a message or ChangeCipherSpec that does not belong where it is, is not right, or comes while something is still due: what is optional may be missing, and whatever else the order, what was negotiated and the checks allow is taken |
| `TlsAloneClient.DoGood` | Pindex/Pods/BoringSSL-GRPC/ssl/handshake_client.cc:1707-1789 | Every state appends to transcript and log the same messages, between its place in the order and the next, skips none that is due, adds none that may not be there, and takes in or makes each only with the contents that what was negotiated and the transcript call for |
| `TlsAloneClient.StepGood` | Pindex/Pods/BoringSSL-GRPC/ssl/handshake.cc:491-628 | A delivery, a write, the ChangeCipherSpec that is waited for, a wait that ends and a failure keep all of that |
| `TlsAloneServer.AgainstAnyPeer` | Pindex/Pods/BoringSSL-GRPC/ssl/handshake_server.cc:1539-1621 | The same of the server against any peer; the messages in its log are exactly those that are due, so no CertificateRequest is in it under a cipher without certificates, and every signature and channel ID that it took in is over all that went before; it does not get to its end with a client's certificate and without the signature |
| `TlsAloneServer.RefusedForCause` | Pindex/Pods/BoringSSL-GRPC/ssl/handshake_server.cc:1539-1621 | The server fails only over a message or ChangeCipherSpec that does not belong where it is, is not right, or comes while something is still due |
| `TlsAloneServer.DoGood` | Pindex/Pods/BoringSSL-GRPC/ssl/handshake_server.cc:1539-1621 | Every state appends to transcript and log the same messages, between its place in the order and the next, skips none that is due, adds none that is not, and takes in a Finished, a signature or a channel ID only if it is right over all before it |
| `TlsAloneServer.StepGood` | Pindex/Pods/BoringSSL-GRPC/ssl/handshake.cc:491-628 | A delivery, a write, the ChangeCipherSpec that is waited for, a wait that ends and a failure keep all of that |
| `TlsOrder.PosInScript` | Pindex/Pods/BoringSSL-GRPC/ssl/handshake_client.cc:1707-1789 | The places used for the order are those of the message order of a full and of a resumed handshake |
| `TlsOrder.BehindCcs` | Pindex/Pods/BoringSSL-GRPC/ssl/handshake.cc:380-429 | In a log in order that has a side's ChangeCipherSpec and Finished, the Finished is behind, comes from that side, and is the MAC of all messages before it |
| `TlsCipherChoice.ServerChoose` | Pindex/Pods/BoringSSL-GRPC/ssl/handshake_server.cc:357-424 | None exactly when no cipher is shared and acceptable; with server preference, the first equal-preference group with an acceptable cipher and in it the client's favourite; otherwise the client's first acceptable cipher |
| `TlsCipherChoice.ChooseCipher` | Pindex/Pods/BoringSSL-GRPC/ssl/handshake_server.cc:390-424 | The group loop returns a best entry: acceptable, no acceptable entry in an earlier group, and in its own group none that the client lists earlier; none exactly when no group with an acceptable entry is closed |
| `TlsCipherChoice.BestIsUnique` | Pindex/Pods/BoringSSL-GRPC/ssl/internal.h:1860-1889 | The best cipher is determined by the two lists: any two best entries are the same cipher |
| `TlsCipherChoice.GroupsEnd` | Pindex/Pods/BoringSSL-GRPC/ssl/internal.h:1860-1889 | When the last flag is 0 every group is closed, so the closing condition drops out |
| `TlsCipherChoice.BestIsFirst` | Pindex/Pods/BoringSSL-GRPC/ssl/handshake_server.cc:381-385 | Without groups the best entry is the first acceptable one of the preferred list |
| `TlsCipherChoice.Find` | Pindex/Pods/BoringSSL-GRPC/ssl/handshake_server.cc:400-401 | The search finds a cipher exactly when it is listed, at its first index |
| `TlsPremaster.SelectPremaster` | Pindex/Pods/BoringSSL-GRPC/ssl/handshake_server.cc:1142-1178 | The premaster is the decrypted tail when the block is a properly padded premaster of the right version, and the random one untouched otherwise; a short key fails |
| `TlsPremaster.PaddingMask` | Pindex/Pods/BoringSSL-GRPC/ssl/handshake_server.cc:1157-1171 | The accumulated mask is all ones when every checked byte is right and zero otherwise, never anything between |
| `TlsPremaster.FixedPlaces` | Pindex/Pods/BoringSSL-GRPC/ssl/handshake_server.cc:1157-1178 | Checking the bytes at fixed places is the same as finding the separator: a block passes exactly when it unpads, by section 7.2.2 of RFC 3447, to 48 bytes starting with the version |
| `TlsPremaster.IsZeroMask` | Pindex/Pods/BoringSSL-GRPC/crypto/internal.h:303-321 | The mask arithmetic is all ones exactly for zero, on all 64-bit words |
| `TlsPremaster.EqualMask` | Pindex/Pods/BoringSSL-GRPC/crypto/internal.h:325-333 | The mask arithmetic is all ones exactly for equal words |
| `TlsPremaster.MsbMask` | Pindex/Pods/BoringSSL-GRPC/crypto/internal.h:244-246 | Copying the top bit to every place gives all ones or zero |
| `TlsPremaster.SelectByMask` | Pindex/Pods/BoringSSL-GRPC/crypto/internal.h:351-361 | Under an all-ones mask the first word is selected, under zero the second |
| `DtlsRuns.InOrderDelivery` | Pindex/Pods/BoringSSL-GRPC/ssl/d1_both.cc:203-438 | Under any loss, duplication, reordering and overlap of an honest sender's fragments, the messages read are a gapless prefix of the sender's, byte for byte, and the next can be read exactly when every byte of it has arrived |
| `DtlsRuns.ArriveGood` | Pindex/Pods/BoringSSL-GRPC/ssl/d1_both.cc:352-405 | An honest fragment keeps the correspondence of every ring slot to what has arrived; it is refused exactly when it is seven ahead of the next message (past the filter, but an error in the ring) or out of order under an epoch-1 record |
| `DtlsRuns.SevenAheadFails` | Pindex/Pods/BoringSSL-GRPC/ssl/d1_both.cc:380-385 | At the very start a fragment of the eighth message, which is to be ignored as too far ahead, is an error |
| `DtlsRuns.ReadGood` | Pindex/Pods/BoringSSL-GRPC/ssl/d1_both.cc:408-438 | Reading and dropping a message keeps that correspondence; the slot freed is right for the message seven later |
| `DtlsRuns.CompleteIffArrived` | Pindex/Pods/BoringSSL-GRPC/ssl/d1_both.cc:207-259 | The current message counts as complete exactly when every byte has arrived, and then its contents are the sender's |
| `DtlsIncoming.ReceiveValid` | Pindex/Pods/BoringSSL-GRPC/ssl/d1_both.cc:265-295 | Each ring slot holds only a number in the window congruent to its index, after any fragment, so the slot assertion cannot fire |
| `DtlsIncoming.ReceiveIs` | Pindex/Pods/BoringSSL-GRPC/ssl/d1_both.cc:265-405 | What any fragment does, honest or not: it is refused exactly if it is longer than its message or that than allowed, if it is not the next under keys, if it is seven ahead, or if it disagrees with what there is of its message; refused or outside the window it changes nothing; otherwise it adds exactly its bytes to its message and touches no other, and a message that is complete stays as it is |
| `DtlsIncoming.SameSlotSameNumber` | Pindex/Pods/BoringSSL-GRPC/ssl/d1_both.cc:275-279 | A fragment in the window finds in its slot only its own number |
| `DtlsIncoming.AdvanceValid` | Pindex/Pods/BoringSSL-GRPC/ssl/d1_both.cc:426-438 | Dropping the current message keeps every slot's number in the moved window, through the wrap of the 16-bit counter |
| `DtlsIncoming.RecordValid` | Pindex/Pods/BoringSSL-GRPC/ssl/d1_both.cc:340-405 | A whole record of fragments, honest or not, keeps the ring valid |
| `DtlsIncoming.RecordOfFragments` | Pindex/Pods/BoringSSL-GRPC/ssl/d1_both.cc:340-405 | Opening a record of framed fragments is receiving them one by one |
| `DtlsReceiver.HmFragment.Store` | Pindex/Pods/BoringSSL-GRPC/ssl/d1_both.cc:398-404 | Storing a fragment in place adds exactly its bytes to what has been got |
| `DtlsReceiver.HmFragment.Mark` | Pindex/Pods/BoringSSL-GRPC/ssl/d1_both.cc:211-251 | Marking a range makes the mask show exactly the bytes got, and drops the mask exactly when all are there |
| `DtlsReceiver.Receiver.GetIncoming` | Pindex/Pods/BoringSSL-GRPC/ssl/d1_both.cc:265-295 | A slot is found or installed exactly for a number in the window whose header agrees with what is there; otherwise nothing changes and the alert tells which |
| `DtlsReceiver.Receiver.Receive` | Pindex/Pods/BoringSSL-GRPC/ssl/d1_both.cc:352-405 | The ring of in-place buffers after a fragment is the ring of partial messages after it, error and alert included |
| `DtlsReceiver.Receiver.OpenHandshake` | Pindex/Pods/BoringSSL-GRPC/ssl/d1_both.cc:340-405 | The same for all fragments of a record, stopping at the first error |
| `DtlsReceiver.Receiver.GetMessage` | Pindex/Pods/BoringSSL-GRPC/ssl/d1_both.cc:408-424 | A message is returned exactly when the current slot is complete, with an unfragmented header in front of its bytes |
| `DtlsReceiver.Receiver.NextMessage` | Pindex/Pods/BoringSSL-GRPC/ssl/d1_both.cc:426-438 | The slot is freed and the window moves by one |
| `DtlsMask.MarkRange` | Pindex/Pods/BoringSSL-GRPC/ssl/d1_both.cc:222-236 | Exactly the bits of the range are added to the bitmask, within a byte, across bytes and at the edges |
| `DtlsMask.AllMarked` | Pindex/Pods/BoringSSL-GRPC/ssl/d1_both.cc:238-247 | The byte-wise scan finds the mask full exactly when every bit below the length is set |
| `DtlsMask.BitRangeBits` | Pindex/Pods/BoringSSL-GRPC/ssl/d1_both.cc:203-205 | The shift trick has exactly the bits of the range |
| `DtlsFragment.Parse` | Pindex/Pods/BoringSSL-GRPC/ssl/d1_both.cc:459-473 | What is parsed, put back together, is the input; every header number fits its place |
| `DtlsFragment.ParseOfBytes` | Pindex/Pods/BoringSSL-GRPC/ssl/d1_both.cc:459-473 | A framed fragment is parsed back to itself, whatever follows |
| `DtlsFragment.Layout` | Pindex/Pods/BoringSSL-GRPC/ssl/d1_both.cc:459-473 | The bytes of a fragment, place by place, as section 4.2.2 of RFC 6347 lays them out |
| `DtlsReplay.NeverTwice` | Pindex/Pods/BoringSSL-GRPC/ssl/dtls_record.cc:128-175 | Over any run of packets and epoch changes, up to the first wrap of the epoch, no record number is accepted twice |
| `DtlsReplay.AcceptedWhenNew` | Pindex/Pods/BoringSSL-GRPC/ssl/dtls_record.cc:177-272 | After any run, and for every type, version, epoch, number and body: opening a packet that starts with the record framed from them as section 4.1 of RFC 6347 lays it out gives exactly that record if the version is right, the epoch is the reader's, the record was never accepted, is not 64 or more behind one accepted in the epoch, and opens within the plaintext limit; otherwise the packet or the record is dropped, or the overflow reported, as said case by case |
| `DtlsReplay.UnframedDropped` | Pindex/Pods/BoringSSL-GRPC/ssl/dtls_record.cc:192-217 | A packet that does not start with a framed record gives none and is dropped whole |
| `DtlsReplay.ParsesIff` | Pindex/Pods/BoringSSL-GRPC/ssl/dtls_record.cc:192-209 | Parsing succeeds exactly on a framed record followed by anything, and fails exactly on input shorter than its header and length say or with a body above the limit |
| `DtlsReplay.ParseOfFramed` | Pindex/Pods/BoringSSL-GRPC/ssl/dtls_record.cc:192-229 | The bytes of a framed record, place by place, are parsed back to its type, its version, its epoch times 2^48 plus its number, and its body, whatever follows |
| `DtlsReplay.Bitmap.ShouldDiscard` | Pindex/Pods/BoringSSL-GRPC/ssl/dtls_record.cc:140-150 | The 64-bit map discards exactly the numbers that the set of seen numbers calls repeated or too old |
| `DtlsReplay.Bitmap.Record` | Pindex/Pods/BoringSSL-GRPC/ssl/dtls_record.cc:155-175 | Recording a number, however far the window jumps, is adding it to the set |
| `DtlsReplay.RecordReader.OpenRecord` | Pindex/Pods/BoringSSL-GRPC/ssl/dtls_record.cc:177-272 | A record is dropped, refused or accepted, and the window moved, as the set of seen numbers says; what fails to open never moves the window |
| `DtlsReplay.RecordReader.SetReadState` | Pindex/Pods/BoringSSL-GRPC/ssl/dtls_method.cc:81-95 | A new epoch starts with an empty window |
| `DtlsWriter.PairsUnique` | Pindex/Pods/BoringSSL-GRPC/ssl/dtls_record.cc:294-351 | Over any run of seals in the current or previous epoch, failures and epoch changes, no (epoch, number) pair is on two sealed records, up to the first wrap of a counter |
| `DtlsWriter.NumberedInOrder` | Pindex/Pods/BoringSSL-GRPC/ssl/dtls_record.cc:294-351 | Up to the first wrap the records of every epoch carry the numbers 0, 1, 2 and so on in the order in which they were sealed, also those sealed for the previous epoch |
| `DtlsWriter.SealGood` | Pindex/Pods/BoringSSL-GRPC/ssl/dtls_record.cc:294-351 | Sealing, also when it fails after the number was spent, keeps every used pair behind the counters |
| `DtlsWriter.ChangeGood` | Pindex/Pods/BoringSSL-GRPC/ssl/dtls_method.cc:97-107 | An epoch change, which keeps the last epoch's counter, keeps every used pair behind the counters |
| `DtlsFlight.Tiled` | Pindex/Pods/BoringSSL-GRPC/ssl/d1_both.cc:644-780 | The bodies of the fragments sent for a message, put together, are exactly the part of it up to the cursor: no byte missing or repeated; a message passed has at least one fragment |
| `DtlsFlight.SentForward` | Pindex/Pods/BoringSSL-GRPC/ssl/d1_both.cc:739-780 | Whatever is sent moves the cursor strictly forward |
| `DtlsFlight.ByteSent` | Pindex/Pods/BoringSSL-GRPC/ssl/d1_both.cc:644-734 | Every byte before the cursor is in one of the fragments sent |
| `DtlsFlight.FragmentsHonest` | Pindex/Pods/BoringSSL-GRPC/ssl/d1_both.cc:644-734 | Every fragment of a flight is an honest one, as the receiver's theorem asks |
| `DtlsFlight.FlightArrives` | Pindex/Pods/BoringSSL-GRPC/ssl/d1_both.cc:203-438 | If all fragments of a complete flight have arrived at a receiver at that point, in whatever order, it has the message |
| `DtlsFlight.FlightIsRead` | Pindex/Pods/BoringSSL-GRPC/ssl/d1_both.cc:408-438 | If all fragments of a complete flight have arrived, all its messages from the one waited for on are then read one after the other, as the sender meant them |
| `DtlsFlight.FlightGrows` | Pindex/Pods/BoringSSL-GRPC/ssl/d1_both.cc:555-594 | Adding a message to a flight leaves what has been sent of it valid |
| `DtlsSender.Sender.SealRecord` | Pindex/Pods/BoringSSL-GRPC/ssl/dtls_record.cc:294-351 | The counters after sealing are those of the record-number model, and the length is exactly header plus body |
| `DtlsSender.Sender.SealNextMessage` | Pindex/Pods/BoringSSL-GRPC/ssl/d1_both.cc:644-734 | A sealed stretch is the next one of the item at the cursor, under the epoch of the item and within the room; no progress is reported exactly when not even one byte fits; errors leave the cursor where it was |
| `DtlsSender.Sender.SealStretch` | Pindex/Pods/BoringSSL-GRPC/ssl/d1_both.cc:680-733 | The stretch starts at the offset and is as the room allows; partial exactly when bytes are left |
| `DtlsSender.Sender.SealNextPacket` | Pindex/Pods/BoringSSL-GRPC/ssl/d1_both.cc:739-780 | A packet is within the MTU, not empty, and carries consecutive stretches from the cursor on; also when sealing fails, the cursor stands exactly behind what had been sealed by then, and what that is follows from flight, cursor, counters and room |
| `DtlsPacking.PackSends` | Pindex/Pods/BoringSSL-GRPC/ssl/d1_both.cc:739-780 | Whether or not a packet could be made, what was sealed are the next stretches from the cursor, and the new cursor is behind them |
| `DtlsPacking.SealableNeverFails` | Pindex/Pods/BoringSSL-GRPC/ssl/d1_both.cc:644-780 | With packets below 64K, the epochs of all items known and counters with a number left for every byte, no sealing fails: a packet is refused only when not even a first item fits it, and that is still so afterwards |
| `DtlsPacking.NextItemIs` | Pindex/Pods/BoringSSL-GRPC/ssl/d1_both.cc:680-716 | The stretch of a message that is sealed is as much of what is left as fits behind the record header and the fragment header, beside what the cipher may add |
| `DtlsPacking.PackFull` | Pindex/Pods/BoringSSL-GRPC/ssl/d1_both.cc:739-780 | A packet is as full as it can be: if the flight goes on with a new item, less room is left than some progress on that item needs |
| `DtlsPacking.FirstItemFits` | Pindex/Pods/BoringSSL-GRPC/ssl/d1_both.cc:644-780 | Under the same bounds, with room for the first item there is a packet, and fewer steps are left behind it |
| `DtlsPacking.LosesIff` | Pindex/Pods/BoringSSL-GRPC/ssl/d1_both.cc:739-817 | A packet that could not be made has moved the cursor exactly when an item had been sealed before the failure |
| `DtlsPacking.LosesBecause` | Pindex/Pods/BoringSSL-GRPC/ssl/d1_both.cc:644-780 | That happens only to packets above 64K, to an item of an unknown epoch, or when a counter has come to its end |
| `DtlsPacking.BigPacketLoses` | Pindex/Pods/BoringSSL-GRPC/ssl/d1_both.cc:739-817 | With an MTU above 64K it does happen: a message of one byte is sealed, the one of 70000 behind it is not, and the cursor stands past a message that was in no packet |
| `DtlsSender.Sender.UpdateMtu` | Pindex/Pods/BoringSSL-GRPC/ssl/d1_both.cc:615-632 | The MTU is at least the minimum afterwards, as the code asserts, exactly when it was before or the transport may be asked; an answer of at least 228 bytes is then the MTU, and without one it is 1472 |
| `DtlsSender.MtuAsserted` | Pindex/Pods/BoringSSL-GRPC/ssl/d1_both.cc:615-632 | That condition for every answer of the transport, and an MTU for which the assertion fails |
| `DtlsSender.Sender.SendPacket` | Pindex/Pods/BoringSSL-GRPC/ssl/d1_both.cc:799-817 | A refused packet puts the cursor back, so that the same stretches are sealed again under new numbers; a taken one moves it forward; what has been delivered stops leading to the cursor exactly when sealing failed with items already in the packet, and when it failed with none nothing has changed |
| `DtlsSender.Sender.SendFlight` | Pindex/Pods/BoringSSL-GRPC/ssl/d1_both.cc:782-827 | Across any pattern of refused writes and failed seals, what has been given to the transport tiles the flight up to the cursor exactly unless a seal failed with items already in its packet, which does not happen if sealing was possible throughout beforehand; it terminates; success means the flight is out, and comes, if every packet has room for progress, exactly when the transport takes every packet |
| `DtlsSender.Sender.FlushFlight` | Pindex/Pods/BoringSSL-GRPC/ssl/d1_both.cc:829-834 | The flight is complete, and is written from where it was blocked, with the same exact conditions for the tiling and for success |
| `DtlsSender.Sender.Retransmit` | Pindex/Pods/BoringSSL-GRPC/ssl/d1_both.cc:836-845 | A retransmission that succeeds has sent the whole flight from its start again, and one succeeds if every packet has room for progress and the transport takes them all |
| `DtlsSender.Sender.AddOutgoing` | Pindex/Pods/BoringSSL-GRPC/ssl/d1_both.cc:555-594 | A complete flight is dropped first; at most seven items are taken, each under the epoch then current; the message number grows only for messages |
| `DtlsSender.Sender.AddMessage` | Pindex/Pods/BoringSSL-GRPC/ssl/d1_both.cc:511-598 | The queued bytes are the whole message under the next message number |
| `DtlsSender.Sender.AddChangeCipherSpec` | Pindex/Pods/BoringSSL-GRPC/ssl/d1_both.cc:600-602 | A ChangeCipherSpec takes a place in the flight and no message number |
| `DtlsSender.Sender.SetWriteState` | Pindex/Pods/BoringSSL-GRPC/ssl/dtls_method.cc:97-107 | The epoch grows, the counter restarts, and the last epoch's counter is kept |
| `DtlsTimer.Backoff` | Pindex/Pods/BoringSSL-GRPC/ssl/d1_lib.cc:155-160 | After k doublings the duration is the initial one times two to the k, but at most a minute |
| `DtlsTimer.WaitSum` | Pindex/Pods/BoringSSL-GRPC/ssl/d1_lib.cc:155-187 | The time armed in all by a start and k expiries is exactly the initial duration times two to the c less one, and a minute for each later one, where c counts the durations not above a minute |
| `DtlsTimer.WaitBound` | Pindex/Pods/BoringSSL-GRPC/ssl/d1_lib.cc:168-187 | So, until it gives up, it is at most thirteen minutes in all |
| `DtlsTimer.Timer.Start` | Pindex/Pods/BoringSSL-GRPC/ssl/d1_lib.cc:120-136 | The next timeout is normalised and is now plus the duration, which restarts at the initial one when no timer was set |
| `DtlsTimer.Timer.Stop` | Pindex/Pods/BoringSSL-GRPC/ssl/d1_lib.cc:162-166 | The timer is off, the expiry count zero and the duration the initial one |
| `DtlsTimer.Timer.GetTimeout` | Pindex/Pods/BoringSSL-GRPC/ssl/d1_lib.cc:197-245 | None exactly when no timer is set; otherwise the exact time left, zero when expired or under fifteen milliseconds |
| `DtlsTimer.Timer.IsExpired` | Pindex/Pods/BoringSSL-GRPC/ssl/d1_lib.cc:138-153 | Expired exactly when set and less than fifteen milliseconds are left |
| `DtlsTimer.Timer.HandleTimeout` | Pindex/Pods/BoringSSL-GRPC/ssl/d1_lib.cc:247-267 | Consecutive expiries arm min(initial times 2^k, one minute) from now on; the thirteenth gives up; the MTU falls back exactly from the third on, if the transport's value is usable; the time armed in all since the start is that of the sum |
| `PbComplete.Identity` | Pindex/Pods/nanopb/pb_encode.c:494-516 | A message within its limits, with terminated strings and unset fields at their defaults, is encoded, and below four gigabytes decoded back to itself with every byte consumed |
| `PbComplete.WholeRoundTrip` | Pindex/Pods/nanopb/pb_decode.c:901-1063 | For every well-formed descriptor and every message within its limits, the encoding decodes exactly when no string fills its array, and then to the message as sent |
| `PbComplete.EncodesIff` | Pindex/Pods/nanopb/pb_encode.c:494-516 | Encoding fails exactly when some bytes field is longer than its buffer or an array has more items than it may |
| `PbGrammar.MessageIs` | Pindex/Pods/nanopb/pb_encode.c:211-392 | What is encoded, byte by byte, without the encoder: for each field in descriptor order nothing if it is unset or a proto3 zero, and otherwise key and value, packed where scalars repeat; keys and varints in seven-bit groups, fixed widths low byte first, lengths in front of strings, bytes and messages |
| `PbGrammar.NotSentIff` | Pindex/Pods/nanopb/pb_encode.c:211-304 | A proto3 field is not sent exactly when its value is zero, no bytes, a string that starts with NUL, or a message all of whose fields are unset or zero, at every depth |
| `PbGrammar.EmptyFrom` | Pindex/Pods/nanopb/pb_encode.c:494-516 | A message is encoded as no bytes exactly when every field of it is unset or zero |
| `PbGrammar.VarintUnique` | Pindex/Pods/nanopb/pb_encode.c:574-594 | The grammar leaves no choice for a number: two byte strings that stand for it are the same |
| `PbRecords.DecodedIff` | Pindex/Pods/nanopb/pb_decode.c:901-1049 | On any bytes and over any contents, decoding gives a message exactly if the bytes are records, one behind the other up to their end or a zero key, that turn the one into the other, with the first 64 required fields among them: said without the decoder, with which contents each type of field takes, what it then holds, and what it is merged with, at every depth |
| `PbRecords.RecordsIff` | Pindex/Pods/nanopb/pb_decode.c:919-997 | Record by record: the field loop comes to an end exactly where the grammar of records does, with the message and the fields seen that it gives; a record without a field of its tag has contents of the kind its key names and changes nothing |
| `PbRecords.TakenIff` | Pindex/Pods/nanopb/pb_decode.c:401-475 | A record for a field is taken exactly with contents that the field can hold and, in an array, while there is room; it changes that field and, in a union, clears the others, and nothing else |
| `PbRecords.ValueIff` | Pindex/Pods/nanopb/pb_decode.c:1289-1508 | A value is read from exactly those bytes that can stand for it: integers modulo their width and in range, also in more groups than needed, bytes and strings that fit, fixed-length bytes of that length or of none, messages as records |
| `PbRecords.SkipIff` | Pindex/Pods/nanopb/pb_decode.c:273-326 | What is skipped is exactly contents of the kind that the key names, and no other kind is |
| `PbRecords.DefaultsAre` | Pindex/Pods/nanopb/pb_decode.c:812-895 | Every field starts unset, with what the descriptor gives or with zeros, at every depth |
| `PbTyped.MessageStored` | Pindex/Pods/nanopb/pb_decode.c:901-1049 | Decoding any bytes over contents that fit the storage gives contents that fit it: every integer in range, no string, bytes or array longer than its field, of each union at most one member |
| `PbTyped.DecodedTyped` | Pindex/Pods/nanopb/pb_decode.c:1051-1063 | So a message decoded from any bytes has the type of its descriptor |
| `PbTyped.OnlyMember` | Pindex/Pods/nanopb/pb_decode.c:461-470 | The member of a union that is decoded becomes its only active one, and every field outside the union keeps what it has |
| `PbTyped.OnlyField` | Pindex/Pods/nanopb/pb_decode.c:401-475 | A field that is in no union changes nothing but itself when it is decoded |
| `PbTyped.LastOneWins` | Pindex/Pods/nanopb/pb_decode.c:461-470 | Whatever was decoded before, a union member at the end of the input is the only active one |
| `PbTyped.HiddenContentsShow` | Pindex/Pods/nanopb/pb_decode.c:1463-1485 | That the contents fit is needed behind a has-flag that is not set, too: with two members of one union active there, decoding an empty message over them brings both to light |
| `PbRoundTrip.RoundTrip` | Pindex/Pods/nanopb/pb_decode.c:901-1063 | For any length below 2^63, decoding the encoding succeeds exactly when no string fills its array and no length prefix exceeds 32 bits, and rebuilds the message with every byte consumed |
| `PbRoundTrip.SameSchema` | Pindex/Pods/nanopb/pb_decode.c:1463-1485 | The same over the defaults, as a nested message is decoded |
| `PbRoundTrip.ReaderSchema` | Pindex/Pods/nanopb/pb_decode.c:919-997 | With a reader's descriptor that at every depth may lack fields of the writer's and have others, decoding gives the projection of the message, and fails exactly when a known field cannot be read, an unknown one not be skipped, or a required one was not sent |
| `PbRoundTrip.Reencode` | Pindex/Pods/nanopb/pb_encode.c:494-516 | What was decoded encodes to the same bytes |
| `PbRoundTrip.FullStringFails` | Pindex/Pods/nanopb/pb_decode.c:1428-1461 | A string that fills its array encodes but does not decode: the one-character case |
| `PbRoundTrip.ValueRoundTrip` | Pindex/Pods/nanopb/pb_decode.c:1289-1508 | A single value of any type, zigzag, sign-extended, fixed, bytes, string or message, is read back, whatever follows; a message as the reader's descriptor sees it |
| `PbRoundTrip.SameMessage` | Pindex/Pods/nanopb/pb_decode.c:919-997 | Through its own descriptor a message is seen whole, at every depth, and can be read exactly when no string fills its array and no length is too long |
| `PbRoundTrip.DefaultMessage` | Pindex/Pods/nanopb/pb_encode.c:211-304 | A message that a proto3 writer does not send, as all of it is default, is to any reader its own defaults |
| `PbRoundTrip.ScalarRoundTrip` | Pindex/Pods/nanopb/pb_decode.c:1289-1389 | A scalar in range of its storage is read back |
| `PbRoundTrip.PackedRoundTrip` | Pindex/Pods/nanopb/pb_decode.c:419-448 | A packed array is read back behind the items that were there |
| `PbRoundTrip.ItemsKnown` | Pindex/Pods/nanopb/pb_decode.c:449-459 | The items of an unpacked array are appended in order |
| `PbRoundTrip.SkipOfEnc` | Pindex/Pods/nanopb/pb_decode.c:273-326 | Skipping a value by wire type consumes exactly what the encoder wrote |
| `PbRoundTrip.FieldUnknown` | Pindex/Pods/nanopb/pb_decode.c:919-962 | A field the reader does not have leaves the message and the set of seen fields alone |
| `PbRoundTrip.SubstreamOfEnc` | Pindex/Pods/nanopb/pb_decode.c:367-395 | A length-prefixed string yields its bytes and leaves the rest, unless the length exceeds 32 bits |
| `PbMerge.ConcatIsMerge` | Pindex/Pods/nanopb/pb_decode.h:68-80 | Decoding the concatenation over a message is decoding one part and then the other, when the first has no zero tag and satisfies its required fields |
| `PbMerge.ZeroTagStops` | Pindex/Pods/nanopb/pb_decode.c:305-309 | After a zero tag nothing that follows matters |
| `PbMerge.LoopConcat` | Pindex/Pods/nanopb/pb_decode.c:919-997 | The field loop over a concatenation goes on with the second part where the first stopped, unless a zero tag stopped it |
| `PbWire.Varint64OfEnc` | Pindex/Pods/nanopb/pb_decode.c:250-270 | Every 64-bit value is read back, whatever follows |
| `PbVarint32.Varint32Iff` | Pindex/Pods/nanopb/pb_decode.c:182-242 | On every byte string that starts with a complete varint of at most 37 bytes: the 32-bit reader accepts it exactly when a fifth byte that ends it has nothing above bit 31, and every later byte is empty or could belong to the sign extension of the 32 bits read; it then reads the first five bytes modulo 2^32 and takes exactly the varint |
| `PbVarint32.ReadValue` | Pindex/Pods/nanopb/pb_decode.c:216-237 | What is read is the number encoded exactly when nothing is above its low 32 bits, and stands for its 64-bit sign extension exactly when all bits above are ones |
| `PbVarint32.Varint32OfWord` | Pindex/Pods/nanopb/pb_decode.c:182-242 | Of all 64-bit words as an encoder writes them: those below 2^32 are read back, and of the others exactly those with bit 31 set and each group above all zeros or all ones are accepted, cut to 32 bits; the rest are refused |
| `PbVarint32.NegativeIsRead` | Pindex/Pods/nanopb/pb_decode.c:216-237 | A negative 32-bit number, which an encoder writes sign-extended to 64 bits, is read as its 32 bits |
| `PbVarint32.OversizedAccepted` | Pindex/Pods/nanopb/pb_decode.c:216-237 | An encoder writes a word that is no sign extension and is accepted as other than itself |
| `PbWireType.WireTypeIff` | Pindex/Pods/nanopb/pb_decode.c:401-475 | A field is decoded the same under two wire types, on all input and over all contents, exactly when it is not a repeated packable one or neither or both are the string type |
| `PbWireType.WireTypeIgnored` | Pindex/Pods/nanopb/pb_decode.c:401-475 | The same, step by step: where the types are not told apart nothing depends on which it is |
| `PbWireType.WrongWireTypeDecodes` | Pindex/Pods/nanopb/pb_decode.c:401-475 | A fixed 32-bit field is decoded under the wire type of a varint |
| `PbWire.ZigZagRoundTrip` | Pindex/Pods/nanopb/pb_decode.c:1240-1252 | Zigzag numbers the integers 0, -1, 1, -2 and so on, and every 64-bit value is read back |
| `PbWire.FixedOfEnc` | Pindex/Pods/nanopb/pb_decode.c:1254-1286 | Fixed-width values are read back |
| `PbEncode.OStream.Write` | Pindex/Pods/nanopb/pb_encode.c:101-119 | A write succeeds exactly when it fits (always when sizing), and the output is then what was there and the bytes; nothing changes otherwise |
| `PbEncode.OStream.EncodeVarint` | Pindex/Pods/nanopb/pb_encode.c:574-594 | The varint is written, or the stream is untouched |
| `PbEncode.VarintGroups` | Pindex/Pods/nanopb/pb_encode.c:574-594 | The loop over seven-bit groups fills the buffer with the varint |
| `PbEncode.OStream.EncodeScalar` | Pindex/Pods/nanopb/pb_encode.c:734-808 | A scalar is written as its value in bytes |
| `PbEncode.OStream.EncodeValue` | Pindex/Pods/nanopb/pb_encode.c:734-869 | Any value is written as its value in bytes, or fails as that does |
| `PbEncode.OStream.EncodeSubmessage` | Pindex/Pods/nanopb/pb_encode.c:682-730 | The sizing pass agrees with the writing pass: the nested message is written behind its exact length, and the size never changes between passes |
| `PbEncode.OStream.EncodePackedArray` | Pindex/Pods/nanopb/pb_encode.c:139-181 | A packed array is written behind its exact size, computed or measured |
| `PbEncode.OStream.EncodeItemsPacked` | Pindex/Pods/nanopb/pb_encode.c:153-180 | The items of a packed array follow one another |
| `PbEncode.OStream.EncodeItems` | Pindex/Pods/nanopb/pb_encode.c:182-208 | An unpacked array is its tagged items in order |
| `PbEncode.OStream.EncodeField` | Pindex/Pods/nanopb/pb_encode.c:307-392 | A field is written as its repetition rule says: required always, optional if present, singular unless default, repeated if not empty and not too long, oneof if active |
| `PbEncode.OStream.EncodeMessage` | Pindex/Pods/nanopb/pb_encode.c:494-516 | A message is the encodings of its fields in descriptor order; for any room it succeeds exactly when all of it fits |
| `PbEncode.EncodeToBuffer` | Pindex/Pods/nanopb/pb_encode.c:84-119 | Encoding into a bounded buffer succeeds exactly when the message can be encoded and its length fits, and the buffer then starts with the encoding |
| `PbEncode.GetEncodedSize` | Pindex/Pods/nanopb/pb_encode.c:533-542 | The size reported is the exact length of the encoding |
| `PbIter.FieldIter.Begin` | Pindex/Pods/nanopb/pb_common.c:8-18 | The cursor is at the first field, with the pointers and the required index that position determines |
| `PbIter.FieldIter.Next` | Pindex/Pods/nanopb/pb_common.c:20-76 | After any sequence of steps the pointers and the required index are a function of the position alone; the step wraps at the end |
| `PbIter.FieldIter.Find` | Pindex/Pods/nanopb/pb_common.c:78-95 | The search ends, succeeds exactly when some field has the tag (or the descriptor is empty and the tag 0), stops at the nearest ahead, and otherwise leaves the cursor where it was |
| `PbIter.PointsAtFields` | Pindex/Pods/nanopb/pb.h:385-403 | With offsets as the descriptor macros make them, the cursor points at exactly the places where the compiler has put each field and its count |
| `PbDecode.IStream.Read` | Pindex/Pods/nanopb/pb_decode.c:100-132 | Reading succeeds exactly when that many bytes are left, and takes them |
| `PbDecode.IStream.DecodeVarint32` | Pindex/Pods/nanopb/pb_decode.c:182-247 | The loop over bytes reads the varint as the 32-bit reading says, overflow check included |
| `PbDecode.IStream.DecodeVarint` | Pindex/Pods/nanopb/pb_decode.c:250-270 | The loop over bytes, at most ten, reads the varint |
| `PbDecode.IStream.SkipField` | Pindex/Pods/nanopb/pb_decode.c:316-326 | Skipping goes by the wire type, and fails for the unknown ones |
| `PbDecode.IStream.MakeSubstream` | Pindex/Pods/nanopb/pb_decode.c:367-380 | The substream has exactly the bytes of the string, and the parent is to go on behind them |
| `PbDecode.IStream.CloseSubstream` | Pindex/Pods/nanopb/pb_decode.c:382-395 | Whatever the sub-decoder has read, the parent goes on at the string's end |
| `PbDecode.DecodeTag` | Pindex/Pods/nanopb/pb_decode.c:293-314 | A zero tag and the end of the stream both end a message |
| `PbDecode.DecodeScalar` | Pindex/Pods/nanopb/pb_decode.c:1289-1389 | A scalar is read and range-checked for its storage |
| `PbDecode.DecodeBytes` | Pindex/Pods/nanopb/pb_decode.c:1391-1461 | Bytes and strings are taken exactly when they fit, a string with its NUL |
| `PbDecode.DecodeSubmessage` | Pindex/Pods/nanopb/pb_decode.c:1463-1485 | A nested message is decoded over what is there, in its own substream |
| `PbDecode.DecodePacked` | Pindex/Pods/nanopb/pb_decode.c:419-448 | A packed array is decoded to its end, and fails when it overfills |
| `PbDecode.DecodeField` | Pindex/Pods/nanopb/pb_decode.c:401-475 | A field is decoded by its repetition rule; only a repeated one looks at the wire type |
| `PbDecode.DecodeTagged` | Pindex/Pods/nanopb/pb_decode.c:933-997 | One turn of the loop: a known field is decoded and marked, an unknown one skipped |
| `PbDecode.DecodeNoinit` | Pindex/Pods/nanopb/pb_decode.c:901-1049 | Decoding over present contents succeeds, with what value and what is left, as the message semantics say, the required-field check included |
| `PbDecode.Decode` | Pindex/Pods/nanopb/pb_decode.c:1051-1063 | The same over the defaults, whatever the storage held |
| `PbDecode.SetToDefaults` | Pindex/Pods/nanopb/pb_decode.c:884-895 | Every field gets its default, at every depth, whatever was there |
| `PbDecode.SetFieldToDefault` | Pindex/Pods/nanopb/pb_decode.c:812-882 | Flags and counts are cleared; data gets its default, or zeros |
| `PbDecode.CountRequired` | Pindex/Pods/nanopb/pb_decode.c:1006-1022 | Running the cursor to the end counts the required fields |
| `PbDecode.FieldsSeen.Mark` | Pindex/Pods/nanopb/pb_decode.c:988-993 | Setting the bit adds the field's required index to the set and nothing else |
| `PbDecode.FieldsSeen.AllMarked` | Pindex/Pods/nanopb/pb_decode.c:1027-1045 | The word-wise check passes exactly when each of the first required fields was seen |
| `PbDecode.MarksDecide` | Pindex/Pods/nanopb/pb_decode.c:988-1046 | The bitset check passes exactly when all of the first 64 required fields were seen |
| `TlsWriter.Writer.WriteAppData` | Pindex/Pods/BoringSSL-GRPC/ssl/s3_pkt.cc:129-200 | A write, also one continued after a block, either completes with exactly the bytes reported newly sealed as application data, once and in order, or leaves the same write resumable; it fails only on a refusal of the transport, one for each failure, if the cipher seals, there is room, and nothing is shut down, and otherwise reports all of the input or, with partial writes, its first fragment; what was sent stays a prefix of what was sealed if no block that it asks for is put where its end passes 2^16 |
| `TlsWriter.Writer.WriteRetried` | Pindex/Pods/BoringSSL-GRPC/ssl/s3_pkt.cc:129-218 | A write retried with the same arguments, however often it blocks and wherever its blocks are put, seals its plaintext exactly once and in order, and is complete as soon as it has been tried more often than the transport refuses |
| `TlsWriter.Writer.WriteChunk` | Pindex/Pods/BoringSSL-GRPC/ssl/s3_pkt.cc:163-199 | One record's worth: the sealed data grows by exactly the chunk, or the write is still midway |
| `TlsWriter.Writer.DoWrite` | Pindex/Pods/BoringSSL-GRPC/ssl/s3_pkt.cc:221-289 | A pending record is never sealed again; a new one is sealed once; a failure before sealing seals nothing; the flight goes out before it; with a cipher that seals, room and no shutdown, it fails only if the transport refuses |
| `TlsWriter.Writer.WriteNew` | Pindex/Pods/BoringSSL-GRPC/ssl/s3_pkt.cc:227-288 | A new record goes behind the flight, and success reports its plaintext and comes exactly when it can be sealed and the transport takes it; the buffer stops being a queue exactly when a new block is needed and, by its length and place, ends past 2^16 |
| `TlsWriter.Writer.MoveFlight` | Pindex/Pods/BoringSSL-GRPC/ssl/s3_pkt.cc:237-266 | The pending flight is moved to the buffer before anything later, whole or not at all, under the same exact condition |
| `TlsWriter.Writer.RoomIff` | Pindex/Pods/BoringSSL-GRPC/ssl/s3_pkt.cc:237-252 | Where the block is put matters for six capacities only, the largest below 2^16; for each of them there is a place at which it ends past 2^16 |
| `TlsWriter.Writer.WritePending` | Pindex/Pods/BoringSSL-GRPC/ssl/s3_pkt.cc:202-218 | A retry with other arguments is refused; otherwise it succeeds exactly when the transport takes what is queued, and reports the length that was sealed |
| `TlsWriter.Writer.FlushFlight` | Pindex/Pods/BoringSSL-GRPC/ssl/s3_both.cc:231-279 | When the flight is flushed, the transport has exactly what has been sealed, in sealing order, and at all times a prefix of it, as long as the buffer has been a queue; it is flushed exactly when the transport takes it all |
| `TlsWriter.Writer.AddRecordToFlight` | Pindex/Pods/BoringSSL-GRPC/ssl/s3_both.cc:135-165 | A sealed record goes behind the flight, or nothing changes |
| `TlsWriter.Writer.AddMessage` | Pindex/Pods/BoringSSL-GRPC/ssl/s3_both.cc:184-205 | A message is cut into records within the limit whose plaintexts together are the message |
| `TlsBuffer.SSLBuffer.EnsureCap` | Pindex/Pods/BoringSSL-GRPC/ssl/ssl_buffer.cc:47-81 | The capacity is there and the bytes are kept, also when they move; it fails exactly for sizes of 2^16 on; a new block ends within 2^16 exactly when alignment and size say so |
| `TlsBuffer.SSLBuffer.Append` | Pindex/Pods/BoringSSL-GRPC/ssl/ssl_buffer.cc:83-88 | Bytes are added at the end of the queue |
| `TlsBuffer.SSLBuffer.Consume` | Pindex/Pods/BoringSSL-GRPC/ssl/ssl_buffer.cc:90-97 | Bytes are taken from the front of the queue, if the 16-bit offset does not wrap or nothing is left; otherwise the contents are the bytes at the wrapped offset |
| `TlsBuffer.QueueIff` | Pindex/Pods/BoringSSL-GRPC/ssl/ssl_buffer.cc:90-97 | Taking bytes off a block gives what a queue would hold, for all bytes in it, exactly when the offset does not wrap or nothing is left |
| `TlsBuffer.StraightIff` | Pindex/Pods/BoringSSL-GRPC/ssl/ssl_buffer.cc:47-97 | A block works as a queue, however it is filled and emptied, exactly when its alignment offset and capacity are together at most 2^16 |
| `TlsBuffer.WrapLoses` | Pindex/Pods/BoringSSL-GRPC/ssl/ssl_buffer.cc:47-97 | With offset 7 and capacity and size 0xffff, taking off 0xfff9 bytes leaves the first six bytes of the block in place of the last six queued |
| `TlsBuffer.SSLBuffer.DiscardConsumed` | Pindex/Pods/BoringSSL-GRPC/ssl/ssl_buffer.cc:99-103 | An empty buffer is released and the queue is the same |
| `TlsBuffer.SSLBuffer.Clear` | Pindex/Pods/BoringSSL-GRPC/ssl/ssl_buffer.cc:39-45 | The queue is empty and the memory released |
| `TlsBuffer.SSLBuffer.Flush` | Pindex/Pods/BoringSSL-GRPC/ssl/ssl_buffer.cc:239-252 | Over any partial writes, sent and queued together are unchanged, on a block that ends within 2^16; it succeeds exactly when the transport takes all that is queued, which is then empty, and fails only on an answer that is not positive |
| `TlsReader.InOrder` | Pindex/Pods/BoringSSL-GRPC/ssl/s3_both.cc:399-583 | However a stream of handshake messages is cut into records, and whenever the reader looks, the messages read are a prefix of those sent, and another can be read exactly when its last byte is in |
| `TlsReader.PrefixParse` | Pindex/Pods/BoringSSL-GRPC/ssl/s3_both.cc:399-425 | On part of a stream the first message is found exactly when all of it is there; until then the bytes asked for are bytes the message has |
| `TlsReader.ParseMessage` | Pindex/Pods/BoringSSL-GRPC/ssl/s3_both.cc:399-425 | What is found is the front of the buffer, and more is asked for only when there is less |
| `TlsReader.Layout` | Pindex/Pods/BoringSSL-GRPC/ssl/s3_both.cc:399-425 | The bytes of a message, place by place, as section 7.4 of RFC 5246 lays them out |
| `TlsReader.Reader.GetMessage` | Pindex/Pods/BoringSSL-GRPC/ssl/s3_both.cc:427-439 | The message at the front is returned without being consumed |
| `TlsReader.Reader.CanAccept` | Pindex/Pods/BoringSSL-GRPC/ssl/s3_both.cc:441-459 | More is accepted exactly when no message waits and the one under way is within the limit |
| `TlsReader.Reader.HasUnprocessed` | Pindex/Pods/BoringSSL-GRPC/ssl/s3_both.cc:461-472 | There is unprocessed data exactly when there are bytes besides the message being processed |
| `TlsReader.Reader.OpenHandshake` | Pindex/Pods/BoringSSL-GRPC/ssl/s3_both.cc:531-560 | A handshake record's body is appended; another record type is refused |
| `TlsReader.Reader.NextMessage` | Pindex/Pods/BoringSSL-GRPC/ssl/s3_both.cc:562-583 | The message is dropped and what follows is moved down in place; the buffer is released only when empty and outside the handshake |
| `RefCount.CasRefines` | Pindex/Pods/BoringSSL-GRPC/crypto/refcount_c11.c:37-65 | Each step of any thread of the compare-exchange loops, spurious failures included, is at most one step of one atomic saturating counter |
| `RefCount.CasRuns` | Pindex/Pods/BoringSSL-GRPC/crypto/refcount_c11.c:37-65 | Every interleaved run of the compare-exchange loops, spurious failures included, is a run of the atomic counter |
| `RefCount.CasOneZeroLast` | Pindex/Pods/BoringSSL-GRPC/crypto/refcount_c11.c:37-65 | In every interleaving of holders of references the compare-exchange loops never aborts, only the very last decrement returns one, and unless the count saturated one did exactly when no reference is left |
| `RefCount.CasSaturated` | Pindex/Pods/BoringSSL-GRPC/crypto/refcount_c11.c:37-65 | Once the count of the compare-exchange loops is saturated, no later decrement returns one |
| `RefCountLock.LockRefines` | Pindex/Pods/BoringSSL-GRPC/crypto/refcount_lock.c:29-51 | Each step of any thread of the locked counter is at most one step of one atomic saturating counter |
| `RefCountLock.LockRuns` | Pindex/Pods/BoringSSL-GRPC/crypto/refcount_lock.c:29-51 | Every interleaved run of the locked counter is a run of the atomic counter |
| `RefCountLock.LockOneZeroLast` | Pindex/Pods/BoringSSL-GRPC/crypto/refcount_lock.c:29-51 | In every interleaving of holders of references the locked counter never aborts, only the very last decrement returns one, and unless the count saturated one did exactly when no reference is left |
| `RefCountLock.LockSaturated` | Pindex/Pods/BoringSSL-GRPC/crypto/refcount_lock.c:29-51 | Once the count of the locked counter is saturated, no later decrement returns one |
| `RefCount.OneZeroLast` | Pindex/Pods/BoringSSL-GRPC/crypto/refcount_c11.c:37-65 | For the atomic counter: no abort, at most one decrement returns one and it is the last, and unless saturated one did exactly when no reference is left |
| `RefCount.NothingAfterZero` | Pindex/Pods/BoringSSL-GRPC/crypto/refcount_c11.c:49-65 | At zero nothing more can happen |
| `RefCount.SaturatedForever` | Pindex/Pods/BoringSSL-GRPC/crypto/refcount_c11.c:37-65 | A saturated counter stays saturated and no decrement returns one |
| `RefCount.CasFinishes` | Pindex/Pods/BoringSSL-GRPC/crypto/refcount_c11.c:37-65 | Wherever a thread is in its call, three undisturbed steps of the compare-exchange loop end it: an increment or decrement by one, nothing when saturated, and one returned exactly when the last reference went |
| `RefCountLock.LockFinishes` | Pindex/Pods/BoringSSL-GRPC/crypto/refcount_lock.c:29-51 | Under the lock seven steps of a thread end its call with the same effect, unless another thread has the lock |
| `SslSession.RoundTrip` | Pindex/Pods/BoringSSL-GRPC/ssl/ssl_asn1.cc:200-399 | For every presence pattern of the optional fields and any chain length, parsing the printed session gives it back in normal form, exactly when its version, cipher and certificates are known and its verify result is not negative |
| `SslSessionForm.ParseIff` | Pindex/Pods/BoringSSL-GRPC/ssl/ssl_asn1.cc:527-757 | On any elements: parsing succeeds exactly if they have the form of a session, with each element in the order of its tag, of its kind and within its limits, a chain only behind a leaf, and nothing else but an ignored host name; the session is then the one that the elements say, absent ones their defaults |
| `SslSessionForm.PrintIs` | Pindex/Pods/BoringSSL-GRPC/ssl/ssl_asn1.cc:110-399 | What is printed, element by element: the five in front, and then by tag each that does not go without saying, with its value |
| `SslSession.HeadRoundTrip` | Pindex/Pods/BoringSSL-GRPC/ssl/ssl_asn1.cc:206-223 | The mandatory fields are read back; the session ID is left out of a ticket |
| `SslSession.PeerRoundTrip` | Pindex/Pods/BoringSSL-GRPC/ssl/ssl_asn1.cc:225-277 | The peer, context, verify result, PSK, hint and ticket fields are read back, absent ones as their defaults; a negative verify result does not parse |
| `SslSession.AuthRoundTrip` | Pindex/Pods/BoringSSL-GRPC/ssl/ssl_asn1.cc:279-349 | The hash, list, response, secret, group and chain fields are read back; a chain is there only behind a leaf |
| `SslSession.TicketRoundTrip` | Pindex/Pods/BoringSSL-GRPC/ssl/ssl_asn1.cc:351-396 | The age, role, algorithm, early-data and timeout fields are read back; the auth timeout defaults to the timeout and the role to server |
| `SslSession.CertsBack` | Pindex/Pods/BoringSSL-GRPC/ssl/ssl_asn1.cc:225-349 | Leaf and chain give the certificates back, and none when only the SHA-256 is kept |
| `SslSession.NegativeFails` | Pindex/Pods/BoringSSL-GRPC/ssl/ssl_asn1.cc:245-251 | A session with verify result -1 is printed and does not parse, whatever versions, ciphers and certificates are known; with 0 in its place it does |
| `SslSessionIo.Builder.ToBytes` | Pindex/Pods/BoringSSL-GRPC/ssl/ssl_asn1.cc:200-399 | The elements appended in turn are the printed session |
| `SslSessionIo.Cursor.ParseSession` | Pindex/Pods/BoringSSL-GRPC/ssl/ssl_asn1.cc:527-757 | Advancing the cursor element by element over what was printed gives the session back in normal form, or refuses it for its version, cipher, verify result or certificates; on any other elements it accepts and yields what parsing them says |
| `SslSessionIo.Cursor.CollectCerts` | Pindex/Pods/BoringSSL-GRPC/ssl/ssl_asn1.cc:682-714 | Leaf first and then the chain, in order |

## Left out

Handshake:

- The negotiated choices (resumption, kind of cipher, status, ticket, NPN, Channel ID, client certificate) are parameters that both sides share; how the hello extensions settle them is not modelled.
- Hashes, MACs, signatures and key derivation are abstract functions of the transcript; for two honest sides, signatures are assumed to check against what was signed.
- TLS 1.3, early data, SSL 3.0, V2ClientHello, renegotiation, HelloVerifyRequest, alerts, handoff, False Start, and the states that wait for asynchronous callbacks.
- A failing verification of a peer certificate, and servers that insist on a client certificate.
- AgainstAnyPeer: a ChangeCipherSpec counts as heard when it is waited for and taken in. The client takes the negotiated choices from the ServerHello, also ones that it did not offer, which the parsing of extensions would refuse; message bodies that do not parse are not modelled.
- The channels carry messages and ChangeCipherSpec; how messages become records is modelled in `TlsWriter` and `TlsReader`.
- Of the contents of messages only the negotiated choices and the checks over the transcript are modelled.

Records and session:

- WriteAppData: the branch for early data is not modelled; a caller's buffer is its address and contents, and where the allocator puts a block is a parameter. Once a block of the buffer has ended past 2^16, nothing more is claimed of what was sent but that it grows.
- The inside of record sealing and opening, which is an abstract function with a bound on the overhead.
- Sending a ChangeCipherSpec or an alert through the flight, which is one more call of `AddRecordToFlight`.
- Reader.OpenHandshake: takes an opened record; V2ClientHello and the messages about protocol mixups are not modelled.
- SslSession: the elements are tagged tokens; the bytes of DER, and so lengths and canonical form, are not modelled. Integers are those of a 64-bit platform.
- SslSessionForm.ParseIff: the skipped host name may be any element with its tag; the source only looks at its outer length.
- SslSession.RoundTrip: which versions, ciphers and certificates a build accepts are parameters.
- Allocation failure, which is the only way several of these functions fail.

DTLS:

- Receiver.OpenHandshake: starts behind the dispatch on the record type; the ChangeCipherSpec flag and unexpected record types are not modelled.
- InOrderDelivery: a run has at most 2^16 - 1 messages, as message numbers do not repeat in a handshake.
- PairsUnique: speaks of runs up to the first wrap of a record counter. `ssl_record_sequence_update` is not part of this model; its contract in `internal.h:746-748` is used.
- NeverTwice: speaks of runs up to the first wrap of the epoch.
- SendFlight: the check for a closed connection and the timer started by a flush are not modelled there. Once an item is lost, what later packets carry is still stated packet by packet, but nothing about the flight as a whole.
- Timer.GetTimeout: the clamp of a remainder above the largest `int` of seconds is not modelled; an initial duration is between one millisecond and a minute.
- The transport's answers are an arbitrary sequence.
- Alerts other than the ones that the receiving functions return.

nanopb:

- Callbacks, extensions, pointer fields, fixed-count arrays, custom streams and builds without 64-bit integers: the model is the default build for static storage, with 32-bit field sizes.
- The destination is a value with one slot per field, so padding and aliasing of storage are not modelled; addresses appear only in the cursor.
- Members of one union share storage in the source; in the model at most one of them is active.
- EncodeMessage: walks the fields by index where the source uses its cursor; it and the other encoding methods ask that no length overflows 64 bits.
- PbRecords.DecodedIff: keys and lengths are those that the 32-bit reader accepts, which `Varint32Iff` describes; integer fields have 1, 2, 4 or 8 bytes, as the descriptor macros make them.
- PbTyped.MessageStored: asks that the defaults of the descriptor fit their fields.
- PbRoundTrip.RoundTrip: encodings of 2^63 bytes and more are excluded.
- PbRoundTrip.ReaderSchema: shared fields have the same type and repetition rule; a field whose rule changed between versions is not covered.
- PbVarint32.Varint32Iff: varints of 38 bytes and more, where the 8-bit shift counter starts over, are not covered; no varint of the format has more than ten.
- The different error messages are one failure; after a failure the contents of the destination are not described.

Kernels:

- RefCount, RefCountLock: each loop or critical section is modelled as the steps of a thread in a state machine rather than as a method, because only interleaved steps show what can go wrong.
- The comparisons `constant_time_lt` and `constant_time_ge`, which this code does not use, and the timing of any of it.
- RSA decryption: the decrypted block is an input.

Not modelled at all, as they would add only easy members: the Swift sources, platform glue, tables, and thin wrappers around the functions above.
