# tourni and its vendored protocol code: a verified model

The repository is a tournament app together with the C and C++ code it vendors. This project models
the parts of it whose correctness is hard to see, and proves what they are for:

- **nanopb** (`Pb*.dfy`): the table-driven protobuf encoder and decoder. Pure functions specify the
  bytes (`PbWire`, `PbMessage`, `PbParse`); the main theorem is that decoding an encoding onto stored
  data is a merge, from which the round trip and the concatenation law follow (`PbRoundTrip`,
  `PbVisible`). `PbIter`, `PbEncoder` and `PbDecoder` are the mutable iterator and streams, proved
  against those functions.
- **TLS handshake** (`Tls*.dfy`): the client and server state machines of TLS 1.2 and below. The do_
  functions are the methods of `ClientHandshake` and `ServerHandshake`, proved equal to transition
  functions; runs against an arbitrary peer give termination, the order of the Finished messages and
  the authentication properties, and `TlsPair` joins both machines by two queues.
- **DTLS transport** (`Dtls*.dfy`): replay window and sequence numbers, reassembly by bitmask, the
  receiver's ring, the fragmenting sender, the network between them, and the retransmission timer.
- **TLS record writing** (`SslBuffer`, `TlsWrite`): the resumable writer over a transport that writes
  short or fails at any point.
- **Sessions** (`Der`, `CbbBuffer`, `SslSession`, `SslSessionCodec`): the ASN.1 printer and parser of
  SSL_SESSION, and the builder that writes nested elements in place.
- **Reference counts** (`RefCount`), the **constant-time premaster check** (`ConstantTime`, `Pkcs1`)
  and the **bracket** of the app (`Bracket`).

Conventions. Machine words are natural numbers and every truncation is written out (`Bits`).
Cryptography, callbacks, the transport and the clock are parameters: an oracle or environment record
says what they answer. History variables (`sealed`, `transport`, `accepted`, `events`, ...) record what
the properties speak of and steer nothing. A class method that changes state is tied by its
postcondition to a function of the old state, and the theorems are about that function.

Where code and documentation differ the model follows the code. Properties that turned out to hold
only under a condition are stated with it: a fragment exactly seven messages ahead is fatal although
the skip test lets it pass (`DtlsReceiver.HonestFatalIff`); a reference counter can be revived from
zero (`RefCount.RevivedCounter`, `RefCount.ReportedOnceIff`); a session with a negative verify result,
an empty leaf or a chain that is not DER cannot be read back (`SslSession.RoundTrip`); the 32-bit
timer duration can wrap (`DtlsTimer.DoublesUpToAMinute`); the 16-bit offset of a write buffer of more
than 65529 bytes can wrap, and then the transport gets the wrong bytes (`SslBuffer.HandsOverIff`,
`SslBuffer.WrappedFlush`); a DTLS flush can succeed although a message was left out
(`DtlsSender.LeftOut`, `DtlsSender.WholeFlightIff`).

## Model
| member | source | states |
|---|---|---|
| PbWire.VarintRoundTrip | app/Pods/nanopb/pb_encode.c:574-594 | the 64-bit varint decoder gives back every value the encoder wrote, and stops right behind it |
| PbWire.ReadVarintOfVarint | app/Pods/nanopb/pb_decode.c:250-270 | any varint of at most ten bytes, canonical or not, is read as its value modulo 2^64 |
| PbWire.ReadVarintAccepts | app/Pods/nanopb/pb_decode.c:250-270 | the 64-bit decoder succeeds if and only if a varint of at most ten bytes stands in front |
| PbWire.VarintReadersAgree | app/Pods/nanopb/pb_decode.c:182-270 | where the 32-bit and the 64-bit decoder both accept, they consume the same bytes and agree modulo 2^32 |
| PbWire.Varint32RoundTrip | app/Pods/nanopb/pb_decode.c:182-242 | the 32-bit decoder accepts every canonical encoding below 2^32 |
| PbWire.SignExtendedAccepted | app/Pods/nanopb/pb_decode.c:182-242 | the 32-bit decoder accepts every negative int32 that was sign-extended to ten bytes |
| PbWire.Varint32Rejects | app/Pods/nanopb/pb_decode.c:182-242 | the 32-bit decoder rejects every canonical encoding in [2^32, 2^63) |
| PbWire.ZigZagRoundTrip | app/Pods/nanopb/pb_encode.c:596-605 | zigzag decoding inverts zigzag encoding for every int64 |
| PbWire.ZigZagOnto | app/Pods/nanopb/pb_decode.c:1240-1252 | every 64-bit pattern is the zigzag of exactly the int64 it decodes to |
| PbWire.LittleEndianRoundTrip | app/Pods/nanopb/pb_encode.c:607-632 | fixed-width values are read back |
| PbParse.ReadDelimited | app/Pods/nanopb/pb_decode.c:367-395 | a substream and what follows it are together strictly shorter than what was there: the parent moves past prefix and declared length |
| PbParse.Find | app/Pods/nanopb/pb_common.c:78-95 | the search for a tag finds it exactly if some field has it |
| PbParse.DecField | app/Pods/nanopb/pb_decode.c:901-1049 | a field that was decoded took at least one byte, which is why nested decoding ends on every input |
| PbParse.DecLoop | app/Pods/nanopb/pb_decode.c:901-1049 | the loop of pb_decode_noinit never ends with more bytes than it had |
| PbRoundTrip.ClampSigned | app/Pods/nanopb/pb_decode.c:1289-1324 | the cast to a narrower int keeps a value exactly if the value is in its range, so the overflow check is exact |
| PbRoundTrip.SignedRoundTrip | app/Pods/nanopb/pb_encode.c:734-755 | sign extension to 64 bits and the cast back are inverse on the range of the field |
| PbRoundTrip.DecEncNum | app/Pods/nanopb/pb_decode.c:1289-1389 | every scalar in its range is decoded from its encoding |
| PbRoundTrip.ReadKeyRoundTrip | app/Pods/nanopb/pb_decode.c:293-314 | the key that was written is the key that is read |
| PbRoundTrip.ReadDelimitedRoundTrip | app/Pods/nanopb/pb_decode.c:367-395 | a length-delimited string below 2^32 bytes is read back with what follows it untouched |
| PbRoundTrip.SmallIsShort | app/Pods/nanopb/pb_encode.c:674-680 | below 2^32 bytes in all an encoding has no length that does not fit 32 bits, at any depth |
| PbRoundTrip.FindOwnTag | app/Pods/nanopb/pb_common.c:78-95 | in a table of distinct tags a field is found under its own tag |
| PbRoundTrip.DecEncPacked | app/Pods/nanopb/pb_decode.c:401-475 | the packed loop appends (or, for a fixed-size array, stores) exactly the elements that were encoded |
| PbRoundTrip.DecEncUnpacked | app/Pods/nanopb/pb_decode.c:401-475 | the single entries of an unpacked array leave the array that much fuller |
| PbRoundTrip.DecEncArray | app/Pods/nanopb/pb_encode.c:126-211 | a whole array, packed or not, is decoded onto the stored elements |
| PbRoundTrip.DecEncVal | app/Pods/nanopb/pb_decode.c:1463-1485 | a value of any type, submessages included, decodes onto the stored one as their merge |
| PbRoundTrip.DecEncSent | app/Pods/nanopb/pb_encode.c:307-392 | a singular field that was sent, whatever its presence rule, takes the decoder to the merged cell |
| PbRoundTrip.DecEncAt | app/Pods/nanopb/pb_encode.c:307-392 | the bytes of one field, which may be none, take the decoder to the merged state |
| PbRoundTrip.StepFromFacts | app/Pods/nanopb/pb_decode.c:901-1049 | after all fields the cells are the merge, every required field was seen and fixed-size arrays are complete |
| PbRoundTrip.DecEncMsg | app/Pods/nanopb/pb_decode.c:901-1049 | decoding the encoding of m on top of d succeeds, uses every byte and leaves the merge of m into d, at every nesting depth |
| PbVisible.TypedEncMsg | app/Pods/nanopb/pb_encode.c:494-516 | the encoder reports no error for a message whose values fit their fields |
| PbVisible.FitsDefaultMsg | app/Pods/nanopb/pb_decode.c:812-895 | a message set to its defaults has room for every typed message |
| PbVisible.ZeroShows | app/Pods/nanopb/pb_encode.c:215-303 | a proto3 value that is left out because it is the default shows as the default |
| PbVisible.MergeShowsMsg | app/Pods/nanopb/pb_decode.c:812-895 | the merge of m into the defaults shows what m shows |
| PbVisible.RoundTrip | app/Pods/nanopb/pb_decode.c:1051-1063 | pb_decode of what pb_encode wrote succeeds and gives back the message, up to data hidden by a false has-flag, an inactive oneof arm or positions past the count, if the lengths in it fit the 32 bits in which they are read |
| PbVisible.SkipUnknown | app/Pods/nanopb/pb_decode.c:316-326 | well-formed unknown fields leave no trace |
| PbVisible.ConcatenationMerges | app/Pods/nanopb/pb_decode.c:901-1049 | decoding enc(a), unknown fields and enc(b) onto d is merging a and then b into d, as long as arrays fit |
| PbVisible.ConcatenationIsMerge | app/Pods/nanopb/pb_decode.c:1051-1063 | concatenation is merge, for pb_decode on fresh memory |
| PbVisible.MergePointwise | app/Pods/nanopb/pb_decode.c:401-475 | outside oneofs the merge works field by field |
| PbVisible.MergeReplacesOneOf | app/Pods/nanopb/pb_decode.c:401-475 | a oneof set in the second message replaces whatever arm was active, submessages included |
| PbVisible.MergeKeepsOneOf | app/Pods/nanopb/pb_decode.c:401-475 | a oneof not set in the second message stays |
| PbIter.SameCellSameAddress | app/Pods/nanopb/pb_common.c:20-76 | the arms of a oneof share data and size pointer, wherever the iterator stands |
| PbIter.CellsInOrder | app/Pods/nanopb/pb_common.c:20-76 | the data pointers of different members never overlap |
| PbIter.FieldIter.constructor | app/Pods/nanopb/pb_common.c:8-18 | the iterator starts on the first field with the pointers of position 0 |
| PbIter.FieldIter.Restart | app/Pods/nanopb/pb_common.c:20-76 | wrapping around is beginning again |
| PbIter.FieldIter.Next | app/Pods/nanopb/pb_common.c:20-76 | data pointer, size pointer and required index remain functions of the position alone; the last field is followed by the first |
| PbIter.FieldIter.FindTag | app/Pods/nanopb/pb_common.c:78-95 | one turn around the table from anywhere finds the tag or shows that no field has it, and then stands where it stood |
| PbEncoder.OStream.Sizing | app/Pods/nanopb/pb_encode.c:533-542 | a stream without a buffer counts from zero and has no limit |
| PbEncoder.OStream.FromBuffer | app/Pods/nanopb/pb_encode.c:84-99 | a stream over a buffer has its size as the limit |
| PbEncoder.OStream.Within | app/Pods/nanopb/pb_encode.c:682-730 | the substream continues at the position of its parent, limited to the declared size |
| PbEncoder.OStream.Write | app/Pods/nanopb/pb_encode.c:101-119 | writes all of the bytes if they fit and none otherwise; nothing past the limit changes |
| PbEncoder.OStream.Count | app/Pods/nanopb/pb_encode.c:101-119 | a sizing stream only counts |
| PbEncoder.OStream.Absorb | app/Pods/nanopb/pb_encode.c:682-730 | the parent goes on behind the substream |
| PbEncoder.OStream.EncodeVarint | app/Pods/nanopb/pb_encode.c:574-594 | the buffer loop emits the varint of the value |
| PbEncoder.OStream.EncodeSVarint | app/Pods/nanopb/pb_encode.c:596-605 | emits the varint of the zigzag value |
| PbEncoder.OStream.EncodeFixed32 | app/Pods/nanopb/pb_encode.c:607-616 | emits four little-endian bytes |
| PbEncoder.OStream.EncodeFixed64 | app/Pods/nanopb/pb_encode.c:619-632 | emits eight little-endian bytes |
| PbEncoder.OStream.EncodeTag | app/Pods/nanopb/pb_encode.c:635-639 | emits the key |
| PbEncoder.OStream.EncodeString | app/Pods/nanopb/pb_encode.c:674-680 | emits length and bytes |
| PbEncoder.EncodeNum | app/Pods/nanopb/pb_encode.c:734-808 | emits the scalar as its type says, or fails on a bad data size |
| PbEncoder.EncodeVal | app/Pods/nanopb/pb_encode.c:810-868 | emits a value of any type, with the size checks of bytes and strings |
| PbEncoder.EncodeSubmessage | app/Pods/nanopb/pb_encode.c:682-730 | emits length and body; the second pass writes exactly the size of the first, so "submsg size changed" is unreachable |
| PbEncoder.EncodeSized | app/Pods/nanopb/pb_encode.c:682-730 | the part behind the length emits the body within its limit |
| PbEncoder.EncodeItems | app/Pods/nanopb/pb_encode.c:126-211 | the loop over packed elements emits their encodings |
| PbEncoder.PackedSize | app/Pods/nanopb/pb_encode.c:139-181 | the payload size, multiplied out for fixed-width types and measured otherwise, is the length of what the elements emit |
| PbEncoder.EncodePacked | app/Pods/nanopb/pb_encode.c:139-181 | emits key, size and elements |
| PbEncoder.EncodeUnpacked | app/Pods/nanopb/pb_encode.c:126-211 | emits a key before every element |
| PbEncoder.EncodeArray | app/Pods/nanopb/pb_encode.c:126-211 | nothing for an empty array, an error for a count above the maximum, else packed or not as the type allows |
| PbEncoder.EncodeTagged | app/Pods/nanopb/pb_encode.c:641-672 | emits the key of the field and its value |
| PbEncoder.EncodeField | app/Pods/nanopb/pb_encode.c:307-392 | emits what the presence rule of the field asks for |
| PbEncoder.EncodeMsg | app/Pods/nanopb/pb_encode.c:494-516 | the loop over the iterator emits the encoding of the message on sizing and writing streams alike, so the writing pass stores exactly what the sizing pass counted, and succeeds exactly if that fits |
| PbEncoder.GetEncodedSize | app/Pods/nanopb/pb_encode.c:533-542 | succeeds exactly if encoding can, with the length of the encoding |
| PbDecoder.IStream.constructor | app/Pods/nanopb/pb_decode.c:154-176 | a stream over a buffer may read all of it |
| PbDecoder.IStream.ReadByte | app/Pods/nanopb/pb_decode.c:136-152 | takes one byte, or fails at the end |
| PbDecoder.IStream.Read | app/Pods/nanopb/pb_decode.c:100-132 | takes exactly the bytes asked for, if there are as many |
| PbDecoder.IStream.DecodeVarint | app/Pods/nanopb/pb_decode.c:250-270 | the loop computes the 64-bit varint reader |
| PbDecoder.IStream.DecodeVarint32 | app/Pods/nanopb/pb_decode.c:182-242 | the loop computes the 32-bit varint reader, with its wrapping bit position; eof says that nothing was there |
| PbDecoder.IStream.SkipVarintBytes | app/Pods/nanopb/pb_decode.c:273-282 | skips a varint of any length |
| PbDecoder.IStream.Skip | app/Pods/nanopb/pb_decode.c:316-326 | skips a field by its wire type, or fails |
| PbDecoder.IStream.DecodeTag | app/Pods/nanopb/pb_decode.c:293-314 | tells a key, the end of the message and an error apart |
| PbDecoder.IStream.MakeSubstream | app/Pods/nanopb/pb_decode.c:367-380 | the substream has exactly the declared bytes and the parent those behind them |
| PbDecoder.IStream.CloseSubstream | app/Pods/nanopb/pb_decode.c:382-395 | the parent stands right behind the substream, however much of it was consumed |
| PbDecoder.FindIsUnique | app/Pods/nanopb/pb_common.c:78-95 | where the wrap-around search starts does not matter |
| PbDecoder.DecodeNum | app/Pods/nanopb/pb_decode.c:1289-1389 | the scalar decoders with their range checks |
| PbDecoder.DecodeVal | app/Pods/nanopb/pb_decode.c:1391-1508 | decodes a value onto the stored one; any success leaves the end of the stream where it was |
| PbDecoder.DecodeSubmessage | app/Pods/nanopb/pb_decode.c:1463-1485 | decodes a nested message within its length and leaves the parent behind it |
| PbDecoder.DecodePacked | app/Pods/nanopb/pb_decode.c:401-475 | the packed loop fills the array, and ends because every round consumes bytes |
| PbDecoder.DecodeRepeated | app/Pods/nanopb/pb_decode.c:401-475 | one repeated entry, packed or single |
| PbDecoder.ReleaseUnionField | app/Pods/nanopb/pb_decode.c:1104-1128 | fails exactly if the arm stored is no field of the table, and comes back to the new arm |
| PbDecoder.DecodeField | app/Pods/nanopb/pb_decode.c:707-733 | what a field does to its cell and to the progress of a fixed-count array |
| PbDecoder.WordsCompleteIff | app/Pods/nanopb/pb_decode.c:1006-1046 | the mask comparisons on the two words pass if and only if each of the counted required fields was seen |
| PbDecoder.CountRequired | app/Pods/nanopb/pb_decode.c:1006-1046 | wherever the search left the iterator, running it to the end counts all required fields |
| PbDecoder.CheckRequired | app/Pods/nanopb/pb_decode.c:1006-1046 | the check passes if and only if each of the first 64 required fields occurred |
| PbDecoder.DecodeFound | app/Pods/nanopb/pb_decode.c:901-1049 | required bits, fixed-count bookkeeping and decoding of one field agree with the specification |
| PbDecoder.DecodeNoinit | app/Pods/nanopb/pb_decode.c:901-1049 | computes the specified decoder on every input, well-formed or not, and ends |
| PbDecoder.DecodeMessage | app/Pods/nanopb/pb_decode.c:1051-1063 | computes pb_decode, from the defaults |
| TlsClient.ClientHandshake.StartConnectStep | app/Pods/BoringSSL-GRPC/ssl/handshake_client.cc:385-452 | a session that cannot be used is dropped before the ClientHello |
| TlsClient.ClientHandshake.EnterEarlyDataStep | app/Pods/BoringSSL-GRPC/ssl/handshake_client.cc:454-489 | goes on to the ServerHello, after a ChangeCipherSpec and with an early return if early data was offered, or with DTLS to the HelloVerifyRequest |
| TlsClient.ClientHandshake.ReadHelloVerifyRequestStep | app/Pods/BoringSSL-GRPC/ssl/handshake_client.cc:491-533 | restarts the transcript with the second ClientHello |
| TlsClient.ClientHandshake.ReadServerHelloStep | app/Pods/BoringSSL-GRPC/ssl/handshake_client.cc:535-759 | the resumption decision: from here on it is fixed whether there is a session |
| TlsClient.ClientHandshake.Tls13Step | app/Pods/BoringSSL-GRPC/ssl/handshake_client.cc:761-769 | TLS 1.3 as one opaque step |
| TlsClient.ClientHandshake.ReadServerCertificateStep | app/Pods/BoringSSL-GRPC/ssl/handshake_client.cc:771-819 | needed exactly with a certificate cipher |
| TlsClient.ClientHandshake.ReadCertificateStatusStep | app/Pods/BoringSSL-GRPC/ssl/handshake_client.cc:821-869 | optional, even if it was promised |
| TlsClient.ClientHandshake.VerifyServerCertificateStep | app/Pods/BoringSSL-GRPC/ssl/handshake_client.cc:871-889 | notes a verification only if the verifier said ok |
| TlsClient.ClientHandshake.ReadServerKeyExchangeStep | app/Pods/BoringSSL-GRPC/ssl/handshake_client.cc:891-1071 | needed for ECDHE; its signature is checked with a certificate cipher |
| TlsClient.ClientHandshake.ReadCertificateRequestStep | app/Pods/BoringSSL-GRPC/ssl/handshake_client.cc:1073-1143 | optional |
| TlsClient.ClientHandshake.ReadServerHelloDoneStep | app/Pods/BoringSSL-GRPC/ssl/handshake_client.cc:1145-1167 | ends the flight of the server |
| TlsClient.ClientHandshake.SendClientCertificateStep | app/Pods/BoringSSL-GRPC/ssl/handshake_client.cc:1169-1215 | answers a request, with an empty chain if need be |
| TlsClient.ClientHandshake.SendClientKeyExchangeStep | app/Pods/BoringSSL-GRPC/ssl/handshake_client.cc:1220-1371 | fixes the master secret over the transcript so far |
| TlsClient.ClientHandshake.SendClientCertificateVerifyStep | app/Pods/BoringSSL-GRPC/ssl/handshake_client.cc:1373-1455 | sent exactly if a chain was |
| TlsClient.ClientHandshake.SendClientFinishedStep | app/Pods/BoringSSL-GRPC/ssl/handshake_client.cc:1457-1512 | ChangeCipherSpec, NPN, Channel ID and Finished in this order |
| TlsClient.ClientHandshake.FinishFlightStep | app/Pods/BoringSSL-GRPC/ssl/handshake_client.cc:1538-1564 | a resumption is over, a full handshake may return early |
| TlsClient.ClientHandshake.ReadSessionTicketStep | app/Pods/BoringSSL-GRPC/ssl/handshake_client.cc:1566-1647 | a renewed ticket replaces the session by a copy, so there still is one |
| TlsClient.ClientHandshake.ProcessChangeCipherSpecStep | app/Pods/BoringSSL-GRPC/ssl/handshake_client.cc:1649-1656 | switches the read keys |
| TlsClient.ClientHandshake.ReadServerFinishedStep | app/Pods/BoringSSL-GRPC/ssl/handshake_client.cc:1658-1672 | accepts exactly the MAC over its own transcript, and closes the cycle of the state graph |
| TlsClient.ClientHandshake.FinishClientHandshakeStep | app/Pods/BoringSSL-GRPC/ssl/handshake_client.cc:1674-1705 | done |
| TlsClient.ClientHandshake.Dispatch | app/Pods/BoringSSL-GRPC/ssl/handshake_client.cc:1707-1789 | one round of the switch is one step of the transition function the properties below are about |
| TlsClient.ClientHandshake.Handshake | app/Pods/BoringSSL-GRPC/ssl/handshake_client.cc:1707-1789 | the loop terminates for every environment, despite the cycle, and leaves what the steps compose to |
| TlsClient.ClientHandshake.Round | app/Pods/BoringSSL-GRPC/ssl/handshake.cc:491-628 | one round of the driver: what the machine waits for is done, or it runs |
| TlsClient.StepDescends | app/Pods/BoringSSL-GRPC/ssl/handshake_client.cc:1707-1789 | every round that goes on lowers a rank that depends on the state and on whether there is a session |
| TlsClient.Loop | app/Pods/BoringSSL-GRPC/ssl/handshake_client.cc:1707-1789 | ends done or waiting |
| TlsClient.InvRun | app/Pods/BoringSSL-GRPC/ssl/handshake_client.cc:535-1705 | an invariant of every run against any peer: which Finished messages, verifications and signature checks have happened in which state |
| TlsClient.OneFinishedEach | app/Pods/BoringSSL-GRPC/ssl/handshake_client.cc:1457-1705 | against any peer, a client of TLS 1.2 or below that is done sent exactly one Finished and verified exactly one, its own first in a full handshake and last in a resumption |
| TlsClient.KeyExchangeIsAuthenticated | app/Pods/BoringSSL-GRPC/ssl/handshake_client.cc:871-1071 | against any peer, ClientKeyExchange goes out only after the certificate was verified and, for ECDHE, the ServerKeyExchange signature was checked |
| TlsClient.EarlyDataNeedsTls13 | app/Pods/BoringSSL-GRPC/ssl/handshake_client.cc:454-600 | against any peer, a client that entered early data goes on with TLS 1.3 or not at all |
| TlsServer.ServerHandshake.StartAcceptStep | app/Pods/BoringSSL-GRPC/ssl/handshake_server.cc:426-430 | begins |
| TlsServer.ServerHandshake.ReadClientHelloStep | app/Pods/BoringSSL-GRPC/ssl/handshake_server.cc:432-510 | negotiates; the ClientHello stays unconsumed |
| TlsServer.ServerHandshake.SelectCertificateStep | app/Pods/BoringSSL-GRPC/ssl/handshake_server.cc:512-560 | chooses certificate and cipher |
| TlsServer.ServerHandshake.Tls13Step | app/Pods/BoringSSL-GRPC/ssl/handshake_server.cc:562-570 | TLS 1.3 as one opaque step |
| TlsServer.ServerHandshake.SelectParametersStep | app/Pods/BoringSSL-GRPC/ssl/handshake_server.cc:572-684 | the resumption decision; a certificate is requested only without a session |
| TlsServer.ServerHandshake.SendServerHelloStep | app/Pods/BoringSSL-GRPC/ssl/handshake_server.cc:686-752 | answers the extensions; Channel ID needs ECDHE and, resuming, the original hashes |
| TlsServer.ServerHandshake.SendServerCertificateStep | app/Pods/BoringSSL-GRPC/ssl/handshake_server.cc:754-840 | certificate, stapled status, and whether there are parameters to send |
| TlsServer.ServerHandshake.SendServerKeyExchangeStep | app/Pods/BoringSSL-GRPC/ssl/handshake_server.cc:842-912 | sent exactly if there are parameters |
| TlsServer.ServerHandshake.SendServerHelloDoneStep | app/Pods/BoringSSL-GRPC/ssl/handshake_server.cc:914-947 | CertificateRequest if asked for, and the end of the flight |
| TlsServer.ServerHandshake.ReadClientCertificateStep | app/Pods/BoringSSL-GRPC/ssl/handshake_server.cc:949-1040 | an empty chain is an error exactly if one is insisted on |
| TlsServer.ServerHandshake.VerifyClientCertificateStep | app/Pods/BoringSSL-GRPC/ssl/handshake_server.cc:1042-1056 | verifies a chain if there is one |
| TlsServer.ServerHandshake.ReadClientKeyExchangeStep | app/Pods/BoringSSL-GRPC/ssl/handshake_server.cc:1058-1267 | the master secret covers the transcript with this message; a badly padded RSA premaster is replaced by the random one |
| TlsServer.ServerHandshake.ReadClientCertificateVerifyStep | app/Pods/BoringSSL-GRPC/ssl/handshake_server.cc:1269-1363 | needed exactly with a chain |
| TlsServer.ServerHandshake.StartChangeCipherSpecStep | app/Pods/BoringSSL-GRPC/ssl/handshake_server.cc:1365-1368 | waits for ChangeCipherSpec |
| TlsServer.ServerHandshake.ProcessChangeCipherSpecStep | app/Pods/BoringSSL-GRPC/ssl/handshake_server.cc:1370-1377 | switches the read keys |
| TlsServer.ServerHandshake.ReadNextProtoStep | app/Pods/BoringSSL-GRPC/ssl/handshake_server.cc:1379-1413 | read exactly if NPN was negotiated |
| TlsServer.ServerHandshake.ReadChannelIdStep | app/Pods/BoringSSL-GRPC/ssl/handshake_server.cc:1415-1437 | read exactly if Channel ID was negotiated |
| TlsServer.ServerHandshake.ReadClientFinishedStep | app/Pods/BoringSSL-GRPC/ssl/handshake_server.cc:1439-1461 | accepts exactly the MAC over its own transcript |
| TlsServer.ServerHandshake.SendServerFinishedStep | app/Pods/BoringSSL-GRPC/ssl/handshake_server.cc:1463-1509 | ticket, ChangeCipherSpec and Finished; closes the cycle of the state graph |
| TlsServer.ServerHandshake.FinishServerHandshakeStep | app/Pods/BoringSSL-GRPC/ssl/handshake_server.cc:1511-1537 | done |
| TlsServer.ServerHandshake.Dispatch | app/Pods/BoringSSL-GRPC/ssl/handshake_server.cc:1539-1621 | one round of the switch is one step of the transition function the properties below are about |
| TlsServer.ServerHandshake.Handshake | app/Pods/BoringSSL-GRPC/ssl/handshake_server.cc:1539-1621 | the loop terminates for every environment, despite the cycle, and leaves what the steps compose to |
| TlsServer.ServerHandshake.Round | app/Pods/BoringSSL-GRPC/ssl/handshake.cc:491-628 | one round of the driver |
| TlsServer.StepDescends | app/Pods/BoringSSL-GRPC/ssl/handshake_server.cc:1539-1621 | every round that goes on lowers a rank that depends on the state and on whether there is a session |
| TlsServer.Loop | app/Pods/BoringSSL-GRPC/ssl/handshake_server.cc:1539-1621 | ends done or waiting |
| TlsServer.InvRun | app/Pods/BoringSSL-GRPC/ssl/handshake_server.cc:611-1509 | the invariant of every run against any peer |
| TlsServer.OneFinishedEach | app/Pods/BoringSSL-GRPC/ssl/handshake_server.cc:1365-1509 | against any peer, a server of TLS 1.2 or below that is done sent exactly one Finished and verified exactly one, the client's first in a full handshake and last in a resumption |
| TlsServer.ClientIsAuthenticated | app/Pods/BoringSSL-GRPC/ssl/handshake_server.cc:949-1056 | against any peer, a server that requested a certificate and insists on one is done only with a non-empty verified chain and a CertificateVerify checked after that |
| TlsPair.EveryCombination | app/Pods/BoringSSL-GRPC/ssl/handshake_server.cc:572-752 | no combination is missing: any cipher, with or without a certificate request and a client certificate, resumed or not, with any extensions the cipher allows, is that of an honest scenario, which has a start |
| TlsPair.ClientSteps | app/Pods/BoringSSL-GRPC/ssl/handshake_client.cc:385-1705 | in an honest scenario every step of the client advances along the common script |
| TlsPair.ServerSteps | app/Pods/BoringSSL-GRPC/ssl/handshake_server.cc:426-1537 | in an honest scenario every step of the server advances along the common script |
| TlsPair.TurnInv | app/Pods/BoringSSL-GRPC/ssl/handshake.cc:491-628 | whatever moves, a side, a callback that asks to be called again or a single record on its way, exactly the records of the script between the two positions are in flight |
| TlsPair.NothingIsRejected | app/Pods/BoringSSL-GRPC/ssl/handshake_client.cc:385-1789 | client and server joined by reliable queues that deliver record by record, callbacks asking again any finite number of times: under every schedule no message is ever rejected and the transcripts are prefixes of one conversation (section 7.3 of RFC 5246), for every combination of resumption, client certificate, OCSP status, key exchange, ticket, NPN and Channel ID |
| TlsPair.FinishedAgrees | app/Pods/BoringSSL-GRPC/ssl/handshake.cc:380-476 | a Finished waiting to be read covers exactly the transcript and the master secret of its reader |
| TlsPair.NoDeadlock | app/Pods/BoringSSL-GRPC/ssl/handshake.cc:491-628 | no reachable state is stuck, unless both sides are done and nothing is on its way |
| TlsPair.TurnDescends | app/Pods/BoringSSL-GRPC/ssl/handshake.cc:491-628 | every round, arrival and pause lowers a measure of the pair; any other move changes nothing |
| TlsPair.MovesAreBounded | app/Pods/BoringSSL-GRPC/ssl/handshake.cc:491-628 | no schedule goes on for ever |
| TlsPair.HandshakeCompletes | app/Pods/BoringSSL-GRPC/ssl/handshake_server.cc:426-1621 | a run that cannot go on has both sides in state_done with equal transcripts and master secrets and nothing left in flight |
| TlsPair.MissingCertificateIsRejected | app/Pods/BoringSSL-GRPC/ssl/handshake_server.cc:949-1040 | why the honest scenarios exclude it: the empty chain of a client without a certificate is an error for a server that insists on one |
| DtlsRecord.DiscardsExactly | app/Pods/BoringSSL-GRPC/ssl/dtls_record.cc:140-150 | a number is discarded if and only if it was recorded or is at least 64 below the largest |
| DtlsRecord.RecordAgrees | app/Pods/BoringSSL-GRPC/ssl/dtls_record.cc:155-175 | recording any number, also one below the window, keeps bitmap and set in agreement |
| DtlsRecord.ReadState.Open | app/Pods/BoringSSL-GRPC/ssl/dtls_record.cc:177-272 | a record is accepted exactly if it is of the read epoch, authentic, inside the window, was not accepted before and is not too long, which is an error; no pair of epoch and number is accepted twice |
| DtlsRecord.ReadState.SetReadState | app/Pods/BoringSSL-GRPC/ssl/dtls_method.cc:81-95 | refused exactly while there is unprocessed handshake data; a new read epoch starts an empty window and keeps the history |
| DtlsRecord.WriteState.Seal | app/Pods/BoringSSL-GRPC/ssl/dtls_record.cc:294-351 | until a 48-bit number wraps no pair of epoch and number is sealed twice, even when current and previous epoch alternate and records that are too long use up numbers |
| DtlsRecord.WriteState.SetWriteState | app/Pods/BoringSSL-GRPC/ssl/dtls_method.cc:97-107 | a new write epoch restarts its numbers and remembers the last sequence of the previous one |
| DtlsReassembly.MarkRange | app/Pods/BoringSSL-GRPC/ssl/d1_both.cc:211-251 | sets exactly the bits of the range |
| DtlsReassembly.IsComplete | app/Pods/BoringSSL-GRPC/ssl/d1_both.cc:211-251 | the byte-wise test says complete if and only if every byte of the message is marked |
| DtlsReassembly.Fragment.constructor | app/Pods/BoringSSL-GRPC/ssl/d1_both.cc:152-199 | a new fragment holds nothing; an empty message is complete at once |
| DtlsReassembly.Fragment.Mark | app/Pods/BoringSSL-GRPC/ssl/d1_both.cc:211-251 | afterwards exactly the marked range is had in addition, and the mask is freed if and only if nothing is missing |
| DtlsReassembly.Fragment.Receive | app/Pods/BoringSSL-GRPC/ssl/d1_both.cc:386-402 | a piece is written at its offset and marked |
| DtlsReceiver.SameSlot | app/Pods/BoringSSL-GRPC/ssl/d1_both.cc:265-295 | the assertion on frag->seq cannot fail: two numbers of the window that share a slot are equal |
| DtlsReceiver.TakeInv | app/Pods/BoringSSL-GRPC/ssl/d1_both.cc:297-406 | an accepted piece keeps every slot in agreement with the pieces accepted for its message |
| DtlsReceiver.AdvanceInv | app/Pods/BoringSSL-GRPC/ssl/d1_both.cc:426-438 | passing on a message keeps the ring in order |
| DtlsReceiver.CurrentIffCovered | app/Pods/BoringSSL-GRPC/ssl/d1_both.cc:255-259 | a message can be handed on if and only if accepted pieces cover all of [0, msg_len) |
| DtlsReceiver.AdvanceFaithful | app/Pods/BoringSSL-GRPC/ssl/d1_both.cc:408-438 | with an honest sender the message handed on is byte for byte the next one sent |
| DtlsReceiver.HonestFatalIff | app/Pods/BoringSSL-GRPC/ssl/d1_both.cc:374-402 | a piece of an honest sender is fatal if and only if it is too long, exactly seven messages ahead, or not the one message of the encrypted epoch |
| DtlsReceiver.OpenedFaithful | app/Pods/BoringSSL-GRPC/ssl/d1_both.cc:297-406 | whatever pieces of honest messages arrive, overlapping or not, the receiver holds only bytes that were sent |
| DtlsReceiver.Receiver.GetIncomingMessage | app/Pods/BoringSSL-GRPC/ssl/d1_both.cc:265-295 | succeeds exactly for a number of the window whose slot is free or agrees on type and length |
| DtlsReceiver.Receiver.OpenHandshake | app/Pods/BoringSSL-GRPC/ssl/d1_both.cc:297-406 | the loop over the pieces of a record |
| DtlsReceiver.Receiver.GetMessage | app/Pods/BoringSSL-GRPC/ssl/d1_both.cc:408-424 | the current message, if complete |
| DtlsReceiver.Receiver.NextMessage | app/Pods/BoringSSL-GRPC/ssl/d1_both.cc:426-432 | frees the slot, moves the window by one and ends the processing of the message |
| DtlsReceiver.Receiver.OpenCcs | app/Pods/BoringSSL-GRPC/ssl/d1_both.cc:319-338 | a ChangeCipherSpec is noted exactly if it is not encrypted and well formed |
| DtlsReceiver.Receiver.TakeCcs | app/Pods/BoringSSL-GRPC/ssl/d1_both.cc:485-489 | takes the note, once |
| DtlsReceiver.Receiver.HasUnprocessed | app/Pods/BoringSSL-GRPC/ssl/d1_both.cc:440-457 | true exactly if there is a ChangeCipherSpec or an accepted piece of a message other than the one being processed |
| DtlsSender.Sender.ClearOutgoing | app/Pods/BoringSSL-GRPC/ssl/d1_both.cc:500-509 | a new flight |
| DtlsSender.Sender.AddOutgoing | app/Pods/BoringSSL-GRPC/ssl/d1_both.cc:555-594 | queues a message with epoch and number, at most seven in a flight |
| DtlsSender.SealNext | app/Pods/BoringSSL-GRPC/ssl/d1_both.cc:644-734 | what is sealed fits the space and is the next piece of the flight, from exactly where the last one ended |
| DtlsSender.Sender.SealNextMessage | app/Pods/BoringSSL-GRPC/ssl/d1_both.cc:644-734 | computes that, and moves the offset by what was sealed |
| DtlsSender.PacketTracked | app/Pods/BoringSSL-GRPC/ssl/d1_both.cc:739-780 | a packet continues the flight without a gap, whether it was completed or not |
| DtlsSender.Sender.SealNextPacket | app/Pods/BoringSSL-GRPC/ssl/d1_both.cc:739-780 | computes the packet, its length and the new position |
| DtlsSender.SendTracked | app/Pods/BoringSSL-GRPC/ssl/d1_both.cc:782-827 | a packet that cannot be written is rolled back, so what was handed over is the flight up to the current position; only records sealed in a packet that could not be completed are lost |
| DtlsSender.Sender.SendFlight | app/Pods/BoringSSL-GRPC/ssl/d1_both.cc:782-827 | computes the result, the records handed over and the size of what was lost |
| DtlsSender.Sender.UpdateMtu | app/Pods/BoringSSL-GRPC/ssl/d1_both.cc:615-632 | an MTU that is queried is at least the minimum |
| DtlsSender.Sender.FlushFlight | app/Pods/BoringSSL-GRPC/ssl/d1_both.cc:829-834 | if it succeeds, the records of the pass are the flight cut in pieces, every byte of it carried, if and only if no seal failed in this pass behind other records of its packet |
| DtlsSender.AfterCarries | app/Pods/BoringSSL-GRPC/ssl/d1_both.cc:782-827 | records that continue the flight from its beginning carry every byte of it up to where they end |
| DtlsSender.WholeFlightIff | app/Pods/BoringSSL-GRPC/ssl/d1_both.cc:782-827 | a pass that is through was the whole flight if and only if nothing was lost |
| DtlsSender.LeftOut | app/Pods/BoringSSL-GRPC/ssl/d1_both.cc:739-780 | two messages and a cipher that fails once: the second call returns 1 although the first message was never handed over |
| DtlsSender.Sender.Retransmit | app/Pods/BoringSSL-GRPC/ssl/d1_both.cc:836-845 | starts over, possibly with another MTU; success means that every record of the flight was handed over again |
| DtlsSender.Sender.NoteReply | app/Pods/BoringSSL-GRPC/ssl/d1_both.cc:433-437 | a message read after the flight was complete is its reply |
| DtlsSender.Sender.OnHandshakeComplete | app/Pods/BoringSSL-GRPC/ssl/dtls_method.cc:71-79 | the flight is dropped exactly if it was answered |
| DtlsSender.Sender.ReduceMtu | app/Pods/BoringSSL-GRPC/ssl/d1_lib.cc:168-187 | the fallback MTU is taken exactly if it is sane and may be queried |
| DtlsSender.Sender.SetWriteState | app/Pods/BoringSSL-GRPC/ssl/dtls_method.cc:97-107 | the next epoch with its AEAD |
| DtlsNetwork.DeliveredIsPrefix | app/Pods/BoringSSL-GRPC/ssl/d1_both.cc:297-438 | under loss, duplication, reordering and overlap the delivered messages are a byte-exact prefix of those sent (section 4.2.3 of RFC 6347) |
| DtlsNetwork.FlightArrives | app/Pods/BoringSSL-GRPC/ssl/d1_both.cc:644-845 | once the records of a whole pass were accepted, the receiver has the message it waits for |
| DtlsNetwork.Connection.Step | app/Pods/BoringSSL-GRPC/ssl/d1_both.cc:297-845 | sender object, network and receiver object together: every step keeps the delivered messages a prefix of the sent ones |
| DtlsTimer.Timer.Start | app/Pods/BoringSSL-GRPC/ssl/d1_lib.cc:120-136 | the deadline is now plus the duration, which restarts only without a timer |
| DtlsTimer.Timer.Stop | app/Pods/BoringSSL-GRPC/ssl/d1_lib.cc:162-166 | no deadline, no expiries, first duration |
| DtlsTimer.Timer.GetTimeout | app/Pods/BoringSSL-GRPC/ssl/d1_lib.cc:197-245 | the borrow of seconds is right: the time left, with less than 15 ms counted as none |
| DtlsTimer.Timer.IsExpired | app/Pods/BoringSSL-GRPC/ssl/d1_lib.cc:138-153 | expired if and only if there is a deadline less than 15 ms ahead |
| DtlsTimer.Timer.CheckTimeoutNum | app/Pods/BoringSSL-GRPC/ssl/d1_lib.cc:168-187 | from the third expiry on the MTU falls back; the thirteenth fails |
| DtlsTimer.Timer.HandleTimeout | app/Pods/BoringSSL-GRPC/ssl/d1_lib.cc:247-267 | nothing before the deadline; then a doubled duration, a new deadline and a retransmission, or the end |
| DtlsTimer.DoublesUpToAMinute | app/Pods/BoringSSL-GRPC/ssl/d1_lib.cc:155-160 | after k expiries the duration is 2^k times the first, at most a minute (section 4.2.4.1 of RFC 6347), if and only if the first is below 2^31 ms or its excess over that has doubled up to a minute |
| DtlsTimer.DoublingWraps | app/Pods/BoringSSL-GRPC/ssl/d1_lib.cc:155-160 | exactly when 32-bit doubling is the capped doubling of numbers |
| SslBuffer.Buffer.Clear | app/Pods/BoringSSL-GRPC/ssl/ssl_buffer.cc:39-45 | empties and frees |
| SslBuffer.Buffer.EnsureCap | app/Pods/BoringSSL-GRPC/ssl/ssl_buffer.cc:47-81 | keeps the contents, makes room, and aligns the body of a new allocation wherever it lies; fails exactly above 65535 |
| SslBuffer.Buffer.Append | app/Pods/BoringSSL-GRPC/ssl/ssl_buffer.cc:83-88 | takes in what was written behind the contents |
| SslBuffer.Buffer.Consume | app/Pods/BoringSSL-GRPC/ssl/ssl_buffer.cc:90-97 | drops bytes from the front, as long as the 16-bit offset does not wrap |
| SslBuffer.HandsOverIff | app/Pods/BoringSSL-GRPC/ssl/ssl_buffer.cc:239-252 | every sequence of short writes that empties the window hands over exactly the window if and only if it ends within 2^16 bytes from the start of the allocation |
| SslBuffer.CapacityIff | app/Pods/BoringSSL-GRPC/ssl/ssl_buffer.cc:90-97 | the same in terms of offset and capacity before anything is written into the buffer |
| SslBuffer.RoomyIff | app/Pods/BoringSSL-GRPC/ssl/ssl_buffer.cc:47-81 | a capacity is safe wherever malloc puts the allocation if and only if it is at most 65529 |
| SslBuffer.WrappedFlush | app/Pods/BoringSSL-GRPC/ssl/ssl_buffer.cc:90-97 | a window the code grants and gets wrong: capacity 65535 at offset 7, and a short write of 65530 bytes, after which the bytes from offset 1 are sent |
| TlsWrite.Writer.FlushBuffer | app/Pods/BoringSSL-GRPC/ssl/ssl_buffer.cc:239-252 | the transport gets what the short writes hand over, whatever the offset, and the next bytes in seal order if the offset does not wrap; success means all of them |
| TlsWrite.Writer.AddRecordToFlight | app/Pods/BoringSSL-GRPC/ssl/s3_both.cc:135-165 | the record, and nothing else, is sealed and joins the flight behind what was there, or nothing changes |
| TlsWrite.Writer.AddMessage | app/Pods/BoringSSL-GRPC/ssl/s3_both.cc:184-205 | on success the records sealed are exactly the fragments of the message; records sealed before stay as they were |
| TlsWrite.FragmentsCarry | app/Pods/BoringSSL-GRPC/ssl/s3_both.cc:184-205 | those fragments carry the message byte for byte, in at least one record and within the fragment size |
| TlsWrite.Writer.FlushFlight | app/Pods/BoringSSL-GRPC/ssl/s3_both.cc:231-279 | resumable: success means that all that was sealed is with the transport |
| TlsWrite.Writer.WriteFlight | app/Pods/BoringSSL-GRPC/ssl/s3_both.cc:249-279 | goes on from the offset a failed write left |
| TlsWrite.Writer.WritePending | app/Pods/BoringSSL-GRPC/ssl/s3_pkt.cc:202-218 | a retry succeeds only with the same type and at least the bytes of the suspended write, and reports exactly those |
| TlsWrite.Writer.SealIntoBuffer | app/Pods/BoringSSL-GRPC/ssl/s3_pkt.cc:221-289 | a pending flight goes into the write buffer ahead of the record, so the order of sealing is the order of sending unless the record does not fit |
| TlsWrite.Writer.FitsIff | app/Pods/BoringSSL-GRPC/ssl/s3_pkt.cc:221-289 | which flights and records fit the write buffer: those of up to 65529 bytes or more than 65535 wherever malloc puts it, and those in between only in a large enough buffer at hand |
| TlsWrite.Writer.DoWrite | app/Pods/BoringSSL-GRPC/ssl/s3_pkt.cc:221-289 | seals the plaintext at most once, and never while another record is under way |
| TlsWrite.Writer.WriteChunk | app/Pods/BoringSSL-GRPC/ssl/s3_pkt.cc:129-200 | one round of the loop extends the sealed bytes from exactly where they end |
| TlsWrite.Writer.WriteRest | app/Pods/BoringSSL-GRPC/ssl/s3_pkt.cc:129-200 | the loop, with its exits for partial writes and exhausted early data; if its next record fits, so do those behind it |
| TlsWrite.Writer.WriteAppData | app/Pods/BoringSSL-GRPC/ssl/s3_pkt.cc:129-200 | if retries present the same bytes, then each byte is sealed once and in order and a positive result reports exactly the new bytes; if the next record fits the buffer, the transport receives the sealed records in seal order without loss or duplication |
| TlsWrite.Writer.DispatchAlert | app/Pods/BoringSSL-GRPC/ssl/s3_pkt.cc:405-423 | an alert record joins the same order, is sealed once even if writing it is suspended, and stays due until it is written |
| TlsWrite.Writer.SendAlert | app/Pods/BoringSSL-GRPC/ssl/s3_pkt.cc:377-403 | closes the write side; sends exactly this alert now if nothing is being written, and leaves it due otherwise |
| TlsWrite.Writer.Step | app/Pods/BoringSSL-GRPC/ssl/s3_pkt.cc:129-289 | whatever callers mix of writes, messages, ChangeCipherSpec, flushes and alerts, with a transport that may stop anywhere, each step keeps both: bytes sealed once and in order, and sealed bytes handed over in that order |
| Der.LengthRoundTrip | app/Pods/BoringSSL-GRPC/crypto/bytestring/cbb.c:199-283 | the length bytes CBB_flush writes, up to four, are the minimal ones CBS accepts (section 10.1 of X.690) |
| Der.TlvRoundTrip | app/Pods/BoringSSL-GRPC/crypto/bytestring/cbs.c:243-371 | an element is read back with what follows it untouched (section 8.1 of X.690) |
| Der.UintRoundTrip | app/Pods/BoringSSL-GRPC/crypto/bytestring/cbs.c:391-426 | every 64-bit unsigned integer is read back |
| CbbBuffer.FixedRoundTrip | app/Pods/BoringSSL-GRPC/crypto/bytestring/cbb.c:266-273 | a length of fixed width is read back if it fits |
| CbbBuffer.Buffer.Add | app/Pods/BoringSSL-GRPC/crypto/bytestring/cbb.c:92-145 | makes room at the end, growing the buffer if it may, and keeps what was written |
| CbbBuffer.Buffer.MoveAlong | app/Pods/BoringSSL-GRPC/crypto/bytestring/cbb.c:253-261 | the overlapping move keeps the contents |
| CbbBuffer.Buffer.PutFixed | app/Pods/BoringSSL-GRPC/crypto/bytestring/cbb.c:266-273 | writes the length from its last byte on, and tells exactly whether it fits |
| CbbBuffer.Cbb.CloseAsn1 | app/Pods/BoringSSL-GRPC/crypto/bytestring/cbb.c:223-273 | the reserved byte becomes the DER length of the contents behind it, which move along if it takes more bytes |
| CbbBuffer.Cbb.Close | app/Pods/BoringSSL-GRPC/crypto/bytestring/cbb.c:199-283 | the innermost child becomes an element of its parent in place; fails exactly if its length cannot be written, in a buffer that may grow |
| CbbBuffer.Cbb.Flush | app/Pods/BoringSSL-GRPC/crypto/bytestring/cbb.c:199-283 | closes the children of a level, the innermost first |
| CbbBuffer.Cbb.AddBytes | app/Pods/BoringSSL-GRPC/crypto/bytestring/cbb.c:392-400 | flushes and appends to the contents of that level |
| CbbBuffer.Cbb.AddAsn1 | app/Pods/BoringSSL-GRPC/crypto/bytestring/cbb.c:359-390 | flushes, appends the tag and opens an empty child behind one reserved byte |
| CbbBuffer.Cbb.AddPrefixed | app/Pods/BoringSSL-GRPC/crypto/bytestring/cbb.c:297-331 | flushes and opens an empty child behind the bytes of its length |
| CbbBuffer.Cbb.Finish | app/Pods/BoringSSL-GRPC/crypto/bytestring/cbb.c:171-194 | the bytes are those of the top level with every child closed |
| CbbBuffer.ElementWritten | app/Pods/BoringSSL-GRPC/crypto/bytestring/cbb.c:199-390 | a child that was added, filled and flushed is the tag, the minimal length and the contents, at any depth; it fails exactly at 2^32 - 1 bytes |
| CbbBuffer.PrefixedWritten | app/Pods/BoringSSL-GRPC/crypto/bytestring/cbb.c:199-331 | the same for lengths of fixed width |
| Der.OptionalRoundTrip | app/Pods/BoringSSL-GRPC/crypto/bytestring/cbs.c:444-459 | an optional element is found exactly if it was written, because what follows has a larger tag |
| Der.GetAnyIsLocal | app/Pods/BoringSSL-GRPC/crypto/bytestring/cbs.c:186-342 | an element is recognized by its own bytes: what follows neither makes nor breaks it, tags of several bytes included |
| Der.GetUintFits | app/Pods/BoringSSL-GRPC/crypto/bytestring/cbs.c:391-426 | the overflow check of the loop is exact enough: a number that is accepted fits 64 bits |
| SslSession.HeadRoundTrip | app/Pods/BoringSSL-GRPC/ssl/ssl_asn1.cc:207-224 | the fixed fields are read back, exactly for known versions and cipher suites |
| SslSession.TicketingRoundTrip | app/Pods/BoringSSL-GRPC/ssl/ssl_asn1.cc:237-277 | fields 4 to 10 are read back; a negative verify result is not |
| SslSession.EvidenceRoundTrip | app/Pods/BoringSSL-GRPC/ssl/ssl_asn1.cc:279-329 | fields 13 to 18 are read back, omitted ones as their defaults |
| SslSession.LimitsRoundTrip | app/Pods/BoringSSL-GRPC/ssl/ssl_asn1.cc:351-395 | fields 21 to 26 are read back; an omitted auth_timeout is the timeout, an omitted is_server is true |
| SslSession.ChainRoundTrip | app/Pods/BoringSSL-GRPC/ssl/ssl_asn1.cc:331-349 | the chain reads back as it was if and only if each certificate is one DER element |
| SslSession.RoundTrip | app/Pods/BoringSSL-GRPC/ssl/ssl_asn1.cc:527-757 | parsing a serialized session returns every serialized field and every default if and only if version and cipher are known, the verify result is not negative, the leaf is not empty and the chain is DER; certificates are dropped only beside the hash of the leaf |
| SslSession.SessionRoundTrip | app/Pods/BoringSSL-GRPC/ssl/ssl_asn1.cc:767-844 | the same for SSL_SESSION_to_bytes, the ticket form and SSL_SESSION_from_bytes |
| SslSession.BytesDetermineSession | app/Pods/BoringSSL-GRPC/ssl/ssl_asn1.cc:200-399 | two sessions with the same bytes agree in every serialized field |
| SslSession.PlaceholderIsRejected | app/Pods/BoringSSL-GRPC/ssl/ssl_asn1.cc:767-793 | the placeholder of a session that must not be resumed never parses |
| SslSession.ParsedCanBeRestored | app/Pods/BoringSSL-GRPC/ssl/ssl_asn1.cc:527-757 | whatever the parser accepts can be written and read back, to the very same session unless it holds certificates beside their hash |
| SslSessionCodec.AddHead | app/Pods/BoringSSL-GRPC/ssl/ssl_asn1.cc:207-224 | appends the fixed fields in order |
| SslSessionCodec.AddTicketing | app/Pods/BoringSSL-GRPC/ssl/ssl_asn1.cc:237-277 | appends fields 4 to 10 |
| SslSessionCodec.AddEvidence | app/Pods/BoringSSL-GRPC/ssl/ssl_asn1.cc:279-329 | appends fields 13 to 18 |
| SslSessionCodec.AddChain | app/Pods/BoringSSL-GRPC/ssl/ssl_asn1.cc:331-349 | the loop appends the certificates after the leaf |
| SslSessionCodec.AddLimits | app/Pods/BoringSSL-GRPC/ssl/ssl_asn1.cc:351-395 | appends fields 21 to 26 |
| SslSessionCodec.SessionToBytes | app/Pods/BoringSSL-GRPC/ssl/ssl_asn1.cc:200-399 | the builder computes the printer, for sessions and tickets |
| SslSessionCodec.ReadHead | app/Pods/BoringSSL-GRPC/ssl/ssl_asn1.cc:534-592 | the cursor computes the parser of the fixed fields |
| SslSessionCodec.ReadTicketing | app/Pods/BoringSSL-GRPC/ssl/ssl_asn1.cc:603-625 | the cursor computes the parser of fields 4 to 10, skipping the historical host name |
| SslSessionCodec.ReadEvidence | app/Pods/BoringSSL-GRPC/ssl/ssl_asn1.cc:627-667 | the cursor computes the parser of fields 13 to 18 |
| SslSessionCodec.ReadChain | app/Pods/BoringSSL-GRPC/ssl/ssl_asn1.cc:669-713 | the loop reads elements until the field is used up |
| SslSessionCodec.ReadLimits | app/Pods/BoringSSL-GRPC/ssl/ssl_asn1.cc:720-754 | the cursor computes the parser of fields 21 to 26 |
| SslSessionCodec.SessionParse | app/Pods/BoringSSL-GRPC/ssl/ssl_asn1.cc:527-757 | the cursor computes the parser and stands behind the session |
| RefCount.RunIsLinearizable | app/Pods/BoringSSL-GRPC/crypto/refcount_c11.c:37-65 | for any number of calls and any interleaving of loads and weak compare-and-swaps, spurious failures included, and for the lock version too, the counter is that of an atomic saturating counter and each call that returned took effect once as the atomic operation would |
| RefCount.RealTimeOrder | app/Pods/BoringSSL-GRPC/crypto/internal.h:399-416 | a call that ended before another began took effect before it |
| RefCount.C11StepInv | app/Pods/BoringSSL-GRPC/crypto/refcount_c11.c:37-65 | each load or compare-and-swap keeps the history linear |
| RefCount.LockStepInv | app/Pods/BoringSSL-GRPC/crypto/refcount_lock.c:29-51 | mutual exclusion makes the value read in the critical section current, so each step keeps the history linear |
| RefCount.SaturationIsForever | app/Pods/BoringSSL-GRPC/crypto/internal.h:399-416 | a saturated counter stays saturated and no decrement of it returns one |
| RefCount.ZeroIsReportedLast | app/Pods/BoringSSL-GRPC/crypto/refcount_c11.c:49-65 | if threads only use references they hold, no run aborts, at most one decrement returns one, and it is the last thing that happens to the counter |
| RefCount.BalancedRunReportsZero | app/Pods/BoringSSL-GRPC/crypto/internal.h:399-416 | in a balanced run that did not saturate some decrement returns one, namely the last |
| RefCount.RevivedCounter | app/Pods/BoringSSL-GRPC/crypto/refcount_c11.c:37-47 | without that discipline the property is false: three undisturbed calls of either implementation, of which the second takes a reference at zero and two return one |
| RefCount.ReportedOnceIff | app/Pods/BoringSSL-GRPC/crypto/internal.h:399-416 | a balanced unsaturated history returns one exactly once and last if and only if no increment finds the counter at zero |
| RefCount.RunReportsOnceIff | app/Pods/BoringSSL-GRPC/crypto/refcount_c11.c:37-66 | the same of every run of either implementation that leaves the counter at zero |
| RefCount.Counter.Increment | app/Pods/BoringSSL-GRPC/crypto/refcount_c11.c:37-47 | the loop is one atomic increment between operations of the others, however they and spurious failures interfere |
| RefCount.Counter.DecrementAndTestZero | app/Pods/BoringSSL-GRPC/crypto/refcount_c11.c:49-65 | the loop is one atomic decrement with its result, however the others interfere |
| RefCount.Counter.CompareExchangeWeak | app/Pods/BoringSSL-GRPC/crypto/refcount_c11.c:37-65 | swaps only if the value is the expected one, and otherwise reports it |
| RefCount.Counter.IncrementLocked | app/Pods/BoringSSL-GRPC/crypto/refcount_lock.c:29-35 | inside the lock, the atomic increment |
| RefCount.Counter.DecrementAndTestZeroLocked | app/Pods/BoringSSL-GRPC/crypto/refcount_lock.c:37-51 | inside the lock, the atomic decrement with its result |
| ConstantTime.MsbIsTopBit | app/Pods/BoringSSL-GRPC/crypto/internal.h:244-246 | the mask of the top bit, for every word size |
| ConstantTime.LtIsLess | app/Pods/BoringSSL-GRPC/crypto/internal.h:249-282 | the mask of a < b, although the subtraction wraps |
| ConstantTime.GeIsAtLeast | app/Pods/BoringSSL-GRPC/crypto/internal.h:291-294 | the mask of a >= b |
| ConstantTime.IsZeroIsZero | app/Pods/BoringSSL-GRPC/crypto/internal.h:303-316 | the mask of a == 0 |
| ConstantTime.EqIsEqual | app/Pods/BoringSSL-GRPC/crypto/internal.h:325-328 | the mask of a == b |
| ConstantTime.SelectChooses | app/Pods/BoringSSL-GRPC/crypto/internal.h:351-355 | chooses by an all-ones or all-zeros mask |
| ConstantTime.IsZero8IsZero | app/Pods/BoringSSL-GRPC/crypto/internal.h:320-322 | the 8-bit mask of a == 0 for words |
| ConstantTime.Eq8IsEqual | app/Pods/BoringSSL-GRPC/crypto/internal.h:332-334 | the 8-bit mask of a == b for words |
| ConstantTime.EqInt8IsEqual | app/Pods/BoringSSL-GRPC/crypto/internal.h:344-346 | the 8-bit mask of a == b for ints, negative ones included |
| ConstantTime.Select8Chooses | app/Pods/BoringSSL-GRPC/crypto/internal.h:359-362 | chooses bytes by an 8-bit mask, although its complement is taken in a wider word |
| Pkcs1.WellFormedIff | app/Pods/BoringSSL-GRPC/ssl/handshake_server.cc:1151-1171 | the tests at fixed offsets accept exactly the blocks that the PKCS #1 v1.5 decoding of section 7.2.2 of RFC 3447 and the version rule of section 7.4.7.1 of RFC 5246 accept, with the same premaster |
| Pkcs1.CheckBlock | app/Pods/BoringSSL-GRPC/ssl/handshake_server.cc:1151-1171 | the branch-free accumulation is the mask of well-formedness |
| Pkcs1.SelectPremaster | app/Pods/BoringSSL-GRPC/ssl/handshake_server.cc:1143-1178 | for every block of sufficient length the loops leave the embedded premaster if there is one and the random premaster otherwise |
| Bracket.PaddingPairs | app/tourni/Classes/Tournament.swift:127-136 | padding gives the least power of two and pairs every FREE with a real group |
| Bracket.PicksAgree | app/tourni/View Controllers/BracketController.swift:342-371 | in any order and with any changes of mind, a group is out exactly if the last pick that names it let it lose; winners and losers stay disjoint by name |
| Bracket.RoundConserves | app/tourni/Classes/Tournament.swift:69-87 | picks conserve the names: each is in or out, and none both |
| Bracket.DecidedRow | app/tourni/View Controllers/BracketController.swift:312-315 | in a decided match exactly one group is in, and FREE is out |
| Bracket.RoundEnds | app/tourni/View Controllers/BracketController.swift:422-426 | when every match is decided the winners are exactly one per match, without FREE |
| Bracket.RoundHalves | app/tourni/View Controllers/BracketController.swift:422-426 | a decided round leaves half the groups, and they are ready for the next round |
| Bracket.Champion | app/tourni/Classes/bracket_backend.swift:22-58 | after generate_rounds rounds one real group remains and every other name is out; round i has two groups for each match of generate_matches |
| Bracket.IsPowerOfTwoIff | app/tourni/Classes/bracket_backend.swift:14-17 | the bit trick recognizes exactly the powers of two |
| Bracket.GenerateRounds | app/tourni/Classes/bracket_backend.swift:22-39 | the rounded-down logarithm, and zero without groups |
| Bracket.GenerateMatches | app/tourni/Classes/bracket_backend.swift:46-58 | halving counts from 2^(r-1) to 1 |
| Bracket.MatchesInAll | app/tourni/Classes/bracket_backend.swift:46-58 | there are 2^r - 1 matches in all |
| Bracket.CurrentRound | app/tourni/View Controllers/BracketController.swift:228-245 | the number of groups left determines the round |
| Bracket.Tournament.AddGroup | app/tourni/Classes/Tournament.swift:59-61 | appends a group |
| Bracket.Tournament.Generate | app/tourni/Classes/Tournament.swift:127-136 | the padding loop ends, at the least power of two, and starts the first round |
| Bracket.Tournament.MakeLoser | app/tourni/Classes/Tournament.swift:69-76 | moves a group by name from the winners to the losers |
| Bracket.Tournament.MakeWinner | app/tourni/Classes/Tournament.swift:79-87 | moves a group by name from the losers to the winners |
| Bracket.Tournament.UpdateWinner | app/tourni/View Controllers/BracketController.swift:342-374 | marks the statuses of the round and moves loser and winner |
| Bracket.Tournament.NextRound | app/tourni/View Controllers/BracketController.swift:422-426 | the winners play the next round |

## Left out
- PbVisible.RoundTrip: a string, packed array or submessage of 2^32 bytes or more, whose length is read into 32 bits; tables are finite trees with distinct tags below 2^29, as the generator makes them.
- PbVisible.ConcatenationIsMerge: fixed-count arrays, which a second encoding would have to fill again; an array that would overflow is an error, not a merge.
- PbDecoder.DecodeNoinit: tables with a repeated tag, for which the first field found depends on where the iterator stands.
- PbEncoder.EncodeMsg: sizes that overflow size_t.
- nanopb: pointer fields, callbacks, extensions and old-style options; fixed-count arrays in submessages without presence, whose zero test reads element data as a count; struct memory is a sequence of cells, with inactive union arms as they are after the defaults were set.
- TlsPair.HandshakeCompletes: DTLS, TLS 1.3, SSL 3.0 and early data; the scenarios are those in which negotiation agrees and every check succeeds.
- TlsClient.OneFinishedEach: says nothing of TLS 1.3, which is one opaque step here.
- TLS: the bodies of extensions and hellos, cipher and certificate selection, V2ClientHello, handoff; hashes, signatures, key exchange and X.509 are idealized (a MAC is its inputs) or answered by an oracle.
- DtlsNetwork.DeliveredIsPrefix: message numbers and epochs do not wrap.
- DtlsSender.Sender.SendFlight: of a sealed record only its length; a datagram is written whole or not at all.
- DtlsReceiver.Receiver.OpenHandshake: the ring holds fragments as values; Fragment in DtlsReassembly has the same operations in place.
- DTLS: alerts, headers and versions of records, and when the handshake starts and stops the timer.
- DtlsTimer.Timer.Start: seconds do not wrap at 2^64.
- TlsWrite.Writer.WriteAppData: sealing is an oracle whose output is bounded by the overhead; fragment size and overhead are together at most 65529.
- TLS records: tls_open_record and the read buffers; of tls_seal_record only that its output is at most the overhead longer than its input.
- SslSession.RoundTrip: the X.509 cache that session_cache_objects fills, and fields that are not serialized.
- Der.TlvRoundTrip: bodies of 2^32 - 1 bytes and more, which CBB_flush refuses.
- SslSessionCodec.AddHead: the printer appends finished elements; that reserving, filling and flushing a child does the same is shown in CbbBuffer.
- RefCount.RunIsLinearizable: memory orders weaker than sequential consistency, which the code does not use.
- Pkcs1.SelectPremaster: timing itself; what is proved is the result of the branch-free code.
- Bracket.GenerateMatches: more than 62 rounds, where the conversion to Int would trap.
- Bracket.Champion: counters and cells of the user interface, storage and game codes; a stored tournament is taken as returned unchanged.
- Memory allocation failure, error queues and message callbacks.
