# Models of the SSH stack, codecs and arithmetic of the proxy client

The proxy pool under `proxyPool/ProxyClient` carries a complete SSH stack, several byte-level codecs and a set of
number-theoretic kernels. This project models the parts of it that have a clear mathematical meaning and proves that
meaning: conserved sums, round trips, ring equations, and statements about every run of a protocol.

| files | what they model |
|---|---|
| `Window`, `Buffer`, `Channel`, `ChannelPackets`, `ChannelObject`, `ChannelOpening`, `ChannelRuns`, `Mux` | the SSH connection layer: opening, flow control, receive buffers, packets, closing, the channel table (sections 5.1 to 5.3 of RFC 4254) |
| `Negotiation`, `Rekeying`, `RekeyingRuns`, `RekeyingMismatch`, `Handshake` | algorithm choice, key exchange and cipher switching (sections 7.1 and 7.3 of RFC 4253) |
| `Framing`, `StreamFraming`, `GcmFraming`, `CbcFraming` | the three packet framings (section 6 of RFC 4253, section 7.1 of RFC 5647) |
| `Mpint`, `NameList`, `Messages`, `Certificates`, `CertificateFormat` | the SSH message codec (section 5 of RFC 4251), certificate options and whole certificates |
| `Der`, `DerBuilder`, `DerReader`, `DerInteger`, `DerOid`, `DerTyped` | DER with back-patched lengths, integers and object identifiers (sections 8.1.3, 8.3, 8.19 and 10.1 of ITU-T X.690) |
| `Field25519`, `FieldBytes`, `Scalar25519`, `Ladder25519`, `Congruence` | arithmetic modulo 2^255-19 on ten limbs, its byte form, the scalar of a key, and the ladder of section 5 of RFC 7748 |
| `GfP2`, `GfP6`, `GfP12`, `TowerObjects`, `TowerUnits`, `Fermat`, `Powering` | the bn256 extension tower and its inverses |
| `Modular`, `Smp`, `SmpProofs`, `SmpGroup`, `SmpCodec`, `SmpParty` | the Socialist Millionaires Protocol |
| `Blake2b`, `Blake2x`, `Hkdf`, `ShadowStream` | streaming forms against one-shot forms |
| `Words`, `Division`, `Bytes` | machine words, optional values, remainders, byte strings |

`dafny verify dfyconfig.toml` checks all of it.

Protocols are step systems. Two endpoints and two queues of packets make a system; a run is any sequence of steps that
the goroutines of either side can take, and results are stated for every state of every run. In `ChannelRuns` reading
and crediting, reserving and sending are separate steps, so that readers, writers and the packet loop really interleave.
In `Rekeying` the reading goroutine, the key-exchange goroutine and the writers do. Where a source file works on objects,
the model has a class whose methods are proved against the functions that these systems are built from.

Keystreams, block ciphers, AEADs, MACs, hashes and compression functions are function-valued parameters with the laws
they need (decryption undoes encryption, lengths are fixed); random numbers, paddings and the answers of the network are
arguments.

## What does not hold

- A failed key exchange ought to stop the writers at once (`handshake.go:298`). The flush loop at `handshake.go:327-332`
  pushes what was queued behind the failure and clears the error, exactly if something was queued
  (`Handshake.StopsAtOnceIff`, `Handshake.GapIff`, with a run in `Handshake.WriterInTheGap`). The read loop, which was
  handed the error before, then records it again: from that step on every writer is refused
  (`Handshake.FailedExchangeIsLast`).
- A channel number ought to be reused only after its channel has ended. `OpenChannel` still gives out numbers after the
  packet loop has ended and `dropAll` has emptied the table, so that it can repeat the number of a channel that the peer
  has not ended: `Mux.ReusedTooEarlyIff` says exactly when, `Mux.ReusedTooEarly` is a run.
- A server ought to write with the server-to-client choice and read with the other one (section 7.1 of RFC 4253).
  `prepareKeyChange` takes them the other way round on the server, since `findAgreedAlgorithms` names them from the
  client's side; on the client they are right. `RekeyingMismatch.NothingFailsIff`: nothing fails exactly if the server
  conforms or the choices are equal. Two sides with the lists of `sendKexInit` are safe; a foreign client with one cipher
  each way makes this server fail (`RekeyingMismatch.OneCipherEachWay`).
- The DER builder writes lengths up to 2^32-2, but `readASN1` refuses an element whose total length reaches 2^32:
  `Der.RoundTripIff` and `Der.WritableIsNotReadable`.
- A name list with a comma in a name, or the list of one empty name, does not survive: `NameList.ParseJoinIff`.
- An empty packet is written by all three framings and refused by all three readers, and so is one whose padded length
  exceeds `maxPacket`: the three lemmas named `PacketRoundTrip`.
- The comment on inversion in `gfp6.go` gives C = y^2 - xi*x*z; the code computes y^2 - x*z, which is right
  (`GfP6.CofactorTimes`).
- `parseTuples` accepts a second encoding of an empty option value, so that the encoding of a map is unique exactly if
  none of its options is empty: `Certificates.AcceptedIff` and `Certificates.EncodingIsUniqueIff`. The same then holds of
  whole certificates, whose signature is checked over what `Marshal` writes: `CertificateFormat.OneEncodingIff`.
- `AddASN1BigInt` panics for -1 and for no other number: `DerInteger.AddBig`.
- `ReadASN1Boolean` asks for the tag of an INTEGER and refuses every boolean that `AddASN1Boolean` writes:
  `DerTyped.ReadBooleanIff` and `DerTyped.WrittenBooleanIsRefused`.
- Object identifiers with a number of 2^28 or more are written and not read, and padded numbers are read and not written:
  `DerOid.RoundTripIff` and `DerOid.RewriteIff`.
- A shadowaead stream that is cut off directly behind a sealed length looks like one that has ended:
  `ShadowStream.CutOff`.
- An authenticated GCM packet with an empty text, or with padding 255 and a text that is too short for it, makes
  `readPacket` panic: `GcmFraming.PanicsIff`. No packet of `writePacket` does (`GcmFraming.PacketRoundTrip`).
- After a failed comparison both sides of the Socialist Millionaires Protocol stay in the middle of the run, the starter
  in state 4 and the answerer in state 3 (`SmpParty.Authenticate`). The starter's abort brings the answerer back. The
  starter itself leaves the run only when it starts again or when something else arrives; a run that the other side then
  begins is aborted by its first message, exactly if the comparison failed (`SmpParty.OtherSideStarts`).
- Secrets that are not congruent modulo q compare equal exactly if one of the four blinding exponents is a multiple of
  q; no check of the four messages notices (`Smp.HonestRun`).

## Model

| member | source | states |
|---|---|---|
| `SendWindow.Window.AddCredit` | proxyPool/ProxyClient/ssh/common.go:314-331 | credit that would carry the window past 2^32-1 is refused and changes nothing; otherwise it is added exactly |
| `SendWindow.Window.Close` | proxyPool/ProxyClient/ssh/common.go:335-340 | a closed window keeps its size |
| `SendWindow.Window.ReserveSpace` | proxyPool/ProxyClient/ssh/common.go:345-363 | a reservation takes as much as there is up to the request, never nothing for a positive request on an open window, and reports a closed window |
| `ReceiveBuffer.Buffer.constructor` | proxyPool/ProxyClient/ssh/buffer.go:32-40 | a new buffer is one empty element and not at its end |
| `ReceiveBuffer.Buffer.Write` | proxyPool/ProxyClient/ssh/buffer.go:44-51 | appending to the linked list appends to the byte stream and keeps the list in one piece |
| `ReceiveBuffer.Buffer.CloseBuffer` | proxyPool/ProxyClient/ssh/buffer.go:55-61 | marking the end loses no bytes |
| `ReceiveBuffer.Buffer.Read` | proxyPool/ProxyClient/ssh/buffer.go:65-98 | a read returns the next bytes across element borders, as many as fit; the end is reported only when nothing is left, and it waits only when nothing is there |
| `ChannelPackets.DecodeEncode` | proxyPool/ProxyClient/ssh/channel.go:253-272 | every data packet that WriteExtended builds is read by handleData with the same code, length and payload |
| `ChannelPackets.DataLayout` | proxyPool/ProxyClient/ssh/channel.go:253-272 | a data packet: type 94 exactly for code 0 and else 95, then the recipient that onePacket reads, the code if there is one, the length and the payload |
| `ChannelPackets.ParsedEncoded` | proxyPool/ProxyClient/ssh/channel.go:398-455 | every packet a channel sends carries the number of the peer in bytes 1 to 4 and its own type, and is read by the peer as the packet that was meant |
| `ChannelPackets.EncodedByCodec` | proxyPool/ProxyClient/ssh/messages.go:167-230 | the packets of a channel are what Marshal writes for their messages, field by field |
| `ChannelObject.Channel.constructor` | proxyPool/ProxyClient/ssh/channel.go:457-473 | a new channel: the initial window, its number and direction, empty buffers and nothing sent |
| `ChannelObject.Channel.WritePacket` | proxyPool/ProxyClient/ssh/channel.go:208-218 | a packet goes out unless a CLOSE has gone out before, and a CLOSE is remembered |
| `ChannelObject.Channel.WriteChunk` | proxyPool/ProxyClient/ssh/channel.go:253-275 | a round sends min(maxRemotePayload, length, window) bytes, never none, takes exactly that from the window, and refines reserving and sending of Channel |
| `ChannelObject.Channel.WriteExtended` | proxyPool/ProxyClient/ssh/channel.go:232-284 | for any grants of credit while it waits, what is sent is the beginning of the data cut into non-empty packets the peer allows, each of them addressed to remoteId, no more than the window and the credit; without an error it stops short only when the window and all grants are used up |
| `ChannelObject.Channel.HandleData` | proxyPool/ProxyClient/ssh/channel.go:286-333 | parsing and the checks on bytes refine Channel.HandleData, buffers included |
| `ChannelObject.Channel.AdjustWindow` | proxyPool/ProxyClient/ssh/channel.go:335-344 | the window grows in 32 bits and the credit is announced unless a CLOSE has gone out |
| `ChannelObject.Channel.ReadExtended` | proxyPool/ProxyClient/ssh/channel.go:346-368 | on either stream a read takes the next bytes, credits exactly those in a packet to the peer, leaves the other stream alone and keeps the object valid; the end is reported only from an empty, closed buffer, and a code without a buffer is refused |
| `ChannelObject.Channel.TakeOpen` | proxyPool/ProxyClient/ssh/mux.go:288-292 | a channel of the peer takes its number, its window and its packet size |
| `ChannelObject.Channel.Accept` | proxyPool/ProxyClient/ssh/channel.go:491-508 | a channel of the peer is accepted once, with one confirmation to remoteId that names its own number, window and packet size; any other is refused and sends nothing |
| `ChannelObject.Channel.CloseWrite` | proxyPool/ProxyClient/ssh/channel.go:538-545 | an EOF goes to the peer unless a CLOSE has gone out; an undecided channel is refused |
| `ChannelObject.Channel.CloseChannel` | proxyPool/ProxyClient/ssh/channel.go:547-556 | a CLOSE goes to the peer, the last packet of this channel; an undecided channel is refused |
| `ChannelObject.Channel.EndStreams` | proxyPool/ProxyClient/ssh/channel.go:407-412 | an EOF of the peer marks both buffers as ended and leaves their contents |
| `ChannelObject.Channel.HandleClose` | proxyPool/ProxyClient/ssh/channel.go:402-406 | a CLOSE of the peer is answered with a CLOSE unless one has gone out, both buffers and the send window are closed, and the channel leaves the table |
| `ChannelObject.Channel.HandleConfirm` | proxyPool/ProxyClient/ssh/channel.go:427-437 | a confirmation of our own undecided channel gives it the number, window and packet size of the peer; any other, or a bad packet size, is refused |
| `ChannelObject.Channel.HandleAdjust` | proxyPool/ProxyClient/ssh/channel.go:438-441 | credit is added to the send window unless it would overflow, and then the packet is refused |
| `ChannelObject.Channel.HandlePacket` | proxyPool/ProxyClient/ssh/channel.go:398-455 | on the bytes of any packet the object does what Channel.Handle does on values, and refuses exactly the same packets |
| `Channel.CallEnds` | proxyPool/ProxyClient/ssh/channel.go:251-284 | every iteration brings a call of WriteExtended nearer to its end, and a closed window or a CLOSE ends it |
| `ChannelOpening.Introduce` | proxyPool/ProxyClient/ssh/mux.go:273-330 | opening, accepting and the confirmation leave each side with the number of the other one |
| `Channel.TakeConserves` | proxyPool/ProxyClient/ssh/channel.go:346-354 | reading moves bytes from the buffer to the bytes not yet credited: the account is unchanged |
| `Channel.ReturnConserves` | proxyPool/ProxyClient/ssh/channel.go:335-340 | the unchecked 32-bit addition never overflows, as the comment there claims |
| `Channel.HandleDataConserves` | proxyPool/ProxyClient/ssh/channel.go:286-333 | whatever data packet is accepted, window, buffers and discarded bytes keep their sum |
| `Channel.ActConserves` | proxyPool/ProxyClient/ssh/channel.go:232-382 | every step of a reader, writer or closer keeps the account at the initial window |
| `Channel.HandleConserves` | proxyPool/ProxyClient/ssh/channel.go:398-455 | every packet of an arbitrary peer keeps the account |
| `Channel.WindowIsConserved` | proxyPool/ProxyClient/ssh/channel.go:286-368 | against arbitrary packets and any interleaving, window + unread + read but not credited + discarded is always channelWindowSize, so the window never exceeds it |
| `ChannelRuns.NothingIsRefused` | proxyPool/ProxyClient/ssh/channel.go:398-455 | in a state that honest endpoints reach, the next packet is never refused: not as too much data, nor as an invalid window update, nor as a duplicate answer |
| `ChannelRuns.MoveKeeps` | proxyPool/ProxyClient/ssh/channel.go:208-455 | every move of either endpoint keeps the invariant of both directions |
| `ChannelRuns.FlowControl` | proxyPool/ProxyClient/ssh/channel.go:251-344 | for every interleaving of two honest endpoints no packet is refused, and until a CLOSE the receiver's window equals the sender's window + reserved + in flight + credit not yet received (section 5.2 of RFC 4254) |
| `ChannelRuns.OrderedDelivery` | proxyPool/ProxyClient/ssh/channel.go:232-333 | on every stream what was read, waits and is in flight is exactly what was sent, in order, and what was read is a prefix of what was written |
| `ChannelRuns.EofIsComplete` | proxyPool/ProxyClient/ssh/channel.go:538-545 | in every run: once the packets in flight have arrived after our first CloseWrite on an open channel with idle writers, the peer has seen the end of the streams, and for each writer what was read, followed by what waits there, is all that was written |
| `ChannelRuns.HistoryIsOfMoves` | proxyPool/ProxyClient/ssh/channel.go:232-368 | in every run, what counts as written are the bytes handed to Write and what counts as read are those taken by Read, in order |
| `ChannelRuns.CloseReachesPeer` | proxyPool/ProxyClient/ssh/channel.go:402-406 | in every run, a CLOSE has been sent, is in flight, or has closed both buffers, the send window and the table entry of the peer |
| `ChannelRuns.NothingFollowsClose` | proxyPool/ProxyClient/ssh/channel.go:208-218 | after its CLOSE a side's queue only drains (section 5.3 of RFC 4254) |
| `Mux.ChanList.Add` | proxyPool/ProxyClient/ssh/mux.go:36-47 | the channel goes into the first free slot or a new one, and its number is that slot's |
| `Mux.ChanList.GetChan` | proxyPool/ProxyClient/ssh/mux.go:50-59 | lookup with a wrapping difference finds the slot of the number |
| `Mux.ChanList.Remove` | proxyPool/ProxyClient/ssh/mux.go:61-68 | only the slot of the number is emptied |
| `Mux.ChanList.DropAll` | proxyPool/ProxyClient/ssh/mux.go:71-84 | all listed channels are returned in order and the table is empty |
| `Mux.SlotIsInverse` | proxyPool/ProxyClient/ssh/mux.go:50-53 | slot and number are inverse to each other through the 32-bit wrap-around |
| `Mux.StopKeeps` | proxyPool/ProxyClient/ssh/mux.go:187-195 | the end of the loop closes each listed channel, none of them a second time |
| `Mux.NextKeeps` | proxyPool/ProxyClient/ssh/mux.go:187-330 | every event of a connection, a local OpenChannel after the loop has ended included, keeps slots, numbers and closing in order |
| `Mux.LookupIsExact` | proxyPool/ProxyClient/ssh/mux.go:50-59 | while the loop runs, a number finds exactly the channel that was given it and has not ended |
| `Mux.LateIsOurs` | proxyPool/ProxyClient/ssh/mux.go:187-246 | in every run, a channel that is opened after the packet loop has ended is one of ours |
| `Mux.NumbersAreDistinct` | proxyPool/ProxyClient/ssh/mux.go:36-47 | in every run, listed channels are different and have different numbers |
| `Mux.ReusedOnlyAfterEnd` | proxyPool/ProxyClient/ssh/mux.go:36-68 | in every run, a number goes to a second channel only after the peer has ended the first one, or to a channel opened after the packet loop has ended |
| `Mux.ReusedTooEarlyIff` | proxyPool/ProxyClient/ssh/mux.go:306-318 | in every run, opening a channel gives it a number that is still in use if and only if the loop has ended and the next slot was taken when it did |
| `Mux.ReusedTooEarly` | proxyPool/ProxyClient/ssh/mux.go:187-195 | a run in which that happens: a channel, the end of the loop, another channel |
| `Mux.EndedByPeer` | proxyPool/ProxyClient/ssh/channel.go:398-427 | a channel ends only by a CLOSE or OPEN_FAILURE of the peer that was looked up as this very channel |
| `Mux.ClosedOnce` | proxyPool/ProxyClient/ssh/channel.go:370-382 | in every run, a channel's Go channels are closed at most once, and its one CLOSE is the last thing sent on it |
| `Mux.SaysExactly` | proxyPool/ProxyClient/ssh/channel.go:208-218 | in every run, an event sends exactly: for Accept a confirmation, for Reject a failure, for a user his message, for a CLOSE of the peer a CLOSE, and nothing on any other channel or behind a CLOSE |
| `Mux.AnsweredOnce` | proxyPool/ProxyClient/ssh/channel.go:491-522 | in every run a channel of the peer is answered at most once, and our own channels never answer |
| `Mux.CloseIsAnswered` | proxyPool/ProxyClient/ssh/channel.go:402-406 | in every run a CLOSE of the peer takes the channel out of the table, closes it, and leaves a CLOSE as the last message sent |
| `Mux.LoopEndsIff` | proxyPool/ProxyClient/ssh/mux.go:187-246 | in every run, exactly the events that end the packet loop |
| `Negotiation.FindCommon` | proxyPool/ProxyClient/ssh/common.go:91-100 | the result is the first of the client's names that the server has, and there is none exactly if no name is shared |
| `Negotiation.FindCommonLoop` | proxyPool/ProxyClient/ssh/common.go:91-100 | the two nested loops compute that choice |
| `Negotiation.AgreedIff` | proxyPool/ProxyClient/ssh/common.go:130-174 | an agreement exists exactly if each of the eight pairs of lists of the two KEXINITs shares a name |
| `Negotiation.AgreedIsChoice` | proxyPool/ProxyClient/ssh/common.go:130-174 | each of the eight algorithms stands in the lists of its own kind on both sides, and no earlier name of the client is in the list of the server |
| `Negotiation.AgreedFromConfigs` | proxyPool/ProxyClient/ssh/handshake.go:429-473 | the same for the KEXINITs that sendKexInit makes, in terms of the lists of both configurations; the compression is none |
| `Negotiation.AgreedMeetIff` | proxyPool/ProxyClient/ssh/common.go:130-174 | the two directions get the same algorithms if and only if findCommon comes out equal for them |
| `RekeyingRuns.FindAgreedIsFair` | proxyPool/ProxyClient/ssh/common.go:130-174 | with such lists both directions get the same algorithms whatever the cookies are; a server that conforms needs no such lists |
| `RekeyingRuns.PlainIsCompatible` | proxyPool/ProxyClient/ssh/handshake.go:441-449 | the lists of sendKexInit, equal for both directions, are compatible with each other |
| `RekeyingRuns.MoveKeeps` | proxyPool/ProxyClient/ssh/handshake.go:253-605 | every step of a reader, writer or key exchange on either side keeps the invariant of both wires |
| `Rekeying.RefusedIff` | proxyPool/ProxyClient/ssh/transport.go:128-165 | exactly which packets end the connection: sealed under another cipher or number, NEWKEYS without a cipher to switch to, or not of the kind that is waited for |
| `Rekeying.SwitchFailsIff` | proxyPool/ProxyClient/ssh/transport.go:78-92 | keys cannot be prepared exactly if a cipher still waits in either direction, which happens in no run |
| `RekeyingRuns.NothingFails` | proxyPool/ProxyClient/ssh/transport.go:128-194 | with compatible lists, as those of sendKexInit always are, or with a conforming server and any lists, over any number of key exchanges every packet is opened under the cipher, key epoch and sequence number it was sealed with, and no run reaches an error or the missing key material panic |
| `RekeyingRuns.QueueingKeepsOrder` | proxyPool/ProxyClient/ssh/handshake.go:430-515 | no application packet is on the wire between a KEXINIT and the next NEWKEYS, and accepted packets appear exactly once and in order of acceptance, queued ones included (section 7.1 of RFC 4253) |
| `RekeyingMismatch.NothingFailsIff` | proxyPool/ProxyClient/ssh/transport.go:78-92 | the code on either side, against the code or a conforming peer, with any lists: no run fails if and only if the server conforms or the directions come out equal whenever the sides agree at all. The client is never at fault; a server that runs the code writes with the client-to-server choice |
| `RekeyingMismatch.MismatchFails` | proxyPool/ProxyClient/ssh/handshake.go:521-605 | the run that fails, step by step, for a server that runs the code and any client with which the agreement differs between the directions |
| `RekeyingMismatch.OneCipherEachWay` | proxyPool/ProxyClient/ssh/handshake.go:441-449 | a conforming client with one cipher each way fails against a server with the lists of sendKexInit, and would not if that server conformed |
| `Handshake.Transport.constructor` | proxyPool/ProxyClient/ssh/handshake.go:99-116 | a new transport has sent nothing, queued nothing and asks for a key exchange |
| `Handshake.Transport.Push` | proxyPool/ProxyClient/ssh/handshake.go:213-218 | a packet is on the wire exactly if the connection took it |
| `Handshake.Transport.WritePacket` | proxyPool/ProxyClient/ssh/handshake.go:476-515 | KEXINIT and NEWKEYS are refused; during an exchange packets are queued in order; a failed push is remembered but reported as success; a key exchange is asked for exactly when 2^31 packets, or the limit of bytes, have been pushed since the last one |
| `Handshake.Transport.SendKexInit` | proxyPool/ProxyClient/ssh/handshake.go:430-474 | at most one KEXINIT per exchange |
| `Handshake.Transport.CompleteKex` | proxyPool/ProxyClient/ssh/handshake.go:290-335 | the queue is pushed in order up to the first refusal, and the error left behind is the one of the last push, not the outcome of the exchange |
| `Handshake.Transport.RecordWriteError` | proxyPool/ProxyClient/ssh/handshake.go:226-232 | the first error stays |
| `Handshake.AcceptedIsSentOrQueued` | proxyPool/ProxyClient/ssh/handshake.go:188-347 | in every run of writers, read loop and key exchange loop the wire carries accepted packets in order, and as long as there is no error every accepted packet is on the wire or queued, failed exchanges included |
| `Handshake.ErrorsStay` | proxyPool/ProxyClient/ssh/handshake.go:476-515 | once there is an error it stays in every continuation, no packet is accepted and none of a writer goes out |
| `Handshake.StopsAtOnceIff` | proxyPool/ProxyClient/ssh/handshake.go:296-335 | a failed exchange pushes nothing and stops the writers at once, whatever the connection answers, if and only if nothing is queued |
| `Handshake.GapIff` | proxyPool/ProxyClient/ssh/handshake.go:327-335 | the writer that comes next gets through if and only if something was queued and all of it was pushed |
| `Handshake.FailedExchangeIsLast` | proxyPool/ProxyClient/ssh/handshake.go:188-211 | after a failed exchange no exchange completes in any continuation, the read loop keeps the error, and from its next step on every writer is refused |
| `Handshake.FailedInitIsLast` | proxyPool/ProxyClient/ssh/handshake.go:253-285 | a KEXINIT that cannot be sent is the last one: no exchange is entered any more, and from the record of the error on every writer is refused |
| `Handshake.WriterInTheGap` | proxyPool/ProxyClient/ssh/handshake.go:316-335 | a run with a packet queued during the exchange and one written behind its failure, both of which go out before the writers are stopped |
| `Framing.Padding` | proxyPool/ProxyClient/ssh/cipher.go:232-235 | padding is at least 4, aligns the packet exactly, and is the least that does (section 6 of RFC 4253) |
| `Framing.SequenceRoundTrip` | proxyPool/ProxyClient/ssh/cipher.go:149-298 | if one packet survives a framing, any sequence does, and both ciphers end in the same state |
| `StreamFraming.PacketRoundTrip` | proxyPool/ProxyClient/ssh/cipher.go:149-298 | with or without a MAC and with EtM, a written packet is read back exactly if it is not empty and its padded length is at most maxPacket; otherwise it is refused |
| `StreamFraming.StreamIsFaithful` | proxyPool/ProxyClient/ssh/cipher.go:149-298 | the stream framing is one of those that SequenceRoundTrip covers |
| `StreamFraming.StreamPacketCipher.WritePacket` | proxyPool/ProxyClient/ssh/cipher.go:221-298 | encrypting prefix, packet and padding one after the other seals the packet as a whole; a packet beyond maxPacket is refused |
| `StreamFraming.StreamPacketCipher.ReadPacket` | proxyPool/ProxyClient/ssh/cipher.go:149-218 | decrypting the prefix before the rest opens the packet as a whole |
| `GcmFraming.BumpAddsOne` | proxyPool/ProxyClient/ssh/cipher.go:360-367 | the carry chain adds one to the 64-bit counter |
| `GcmFraming.IncIV` | proxyPool/ProxyClient/ssh/cipher.go:360-367 | the last eight bytes of the IV go up by one modulo 2^64 and the first four stay (section 7.1 of RFC 5647) |
| `GcmFraming.LaterCounter` | proxyPool/ProxyClient/ssh/cipher.go:360-367 | the counter k packets later is its start plus k modulo 2^64 |
| `GcmFraming.NoRepeat` | proxyPool/ProxyClient/ssh/cipher.go:360-367 | no IV is used twice before the counter wraps |
| `GcmFraming.CounterAfter` | proxyPool/ProxyClient/ssh/cipher.go:326-358 | after k packets the IV is the k-th one after the start |
| `GcmFraming.PacketRoundTrip` | proxyPool/ProxyClient/ssh/cipher.go:326-406 | a sealed packet is opened exactly if it is not empty and its padded length is at most maxPacket; otherwise it is refused, and never panics |
| `GcmFraming.PanicsIff` | proxyPool/ProxyClient/ssh/cipher.go:392-405 | an authenticated text makes the reader index or slice out of bounds if and only if it is empty, or its padding is 255 and it is shorter than 256 bytes |
| `GcmFraming.GcmIsFaithful` | proxyPool/ProxyClient/ssh/cipher.go:326-406 | the GCM framing is one of those that SequenceRoundTrip covers |
| `GcmFraming.GcmCipher.WritePacket` | proxyPool/ProxyClient/ssh/cipher.go:326-358 | the packet is sealed with the least padding and the IV moves on by one |
| `GcmFraming.GcmCipher.ReadPacket` | proxyPool/ProxyClient/ssh/cipher.go:369-406 | a packet, a refusal or a panic, as the text and its padding have it; the IV moves on by one with every text that opens, refused for its padding or not, and stays otherwise |
| `CbcFraming.CbcPadding` | proxyPool/ProxyClient/ssh/cipher.go:575-586 | rounding up gives at least 4 bytes of padding, less than a block more, and whole blocks |
| `CbcFraming.DecryptEncrypt` | proxyPool/ProxyClient/ssh/cipher.go:513-548 | chained decryption undoes chained encryption and ends in the same block |
| `CbcFraming.FirstAndRest` | proxyPool/ProxyClient/ssh/cipher.go:499-548 | decrypting the first block before the rest decrypts the packet |
| `CbcFraming.PacketRoundTrip` | proxyPool/ProxyClient/ssh/cipher.go:499-629 | a written packet is read back exactly if it is not empty and its padded length is at most maxPacket |
| `CbcFraming.CbcIsFaithful` | proxyPool/ProxyClient/ssh/cipher.go:499-629 | the CBC framing is one of those that SequenceRoundTrip covers |
| `CbcFraming.CbcCipher.WritePacket` | proxyPool/ProxyClient/ssh/cipher.go:575-629 | the packet with its MAC of the plain text, chained to what went before |
| `CbcFraming.CbcCipher.ReadPacket` | proxyPool/ProxyClient/ssh/cipher.go:499-573 | the first-block checks, the rest and the MAC accept exactly what Open accepts |
| `Mpint.ParseIsSigned` | proxyPool/ProxyClient/ssh/messages.go:548-570 | parseInt reads two's complement |
| `Mpint.ParseMarshal` | proxyPool/ProxyClient/ssh/messages.go:621-666 | for every integer parseInt gives back what marshalInt wrote |
| `Mpint.MarshalIsMinimal` | proxyPool/ProxyClient/ssh/messages.go:621-666 | marshalInt never writes a redundant sign byte (section 5 of RFC 4251) |
| `Mpint.MinimalIsMarshalled` | proxyPool/ProxyClient/ssh/messages.go:548-666 | a minimal encoding is the one marshalInt writes for the number it stands for |
| `Mpint.MinimalIsShortest` | proxyPool/ProxyClient/ssh/messages.go:548-570 | every other form of a number that parseInt accepts is longer |
| `Mpint.LengthIsExact` | proxyPool/ProxyClient/ssh/messages.go:586-609 | intLength, computed from the bit length, is exactly what marshalInt writes |
| `Mpint.MarshalInt` | proxyPool/ProxyClient/ssh/messages.go:621-666 | marshalInt fills exactly intLength bytes of the buffer and leaves the rest alone |
| `NameList.ParseJoinIff` | proxyPool/ProxyClient/ssh/messages.go:531-546 | a name list survives exactly if no name has a comma and it is not the list of one empty name |
| `NameList.JoinSplit` | proxyPool/ProxyClient/ssh/messages.go:531-546 | splitting loses nothing: joining the parts gives the contents back |
| `Messages.TakePut` | proxyPool/ProxyClient/ssh/messages.go:300-507 | each kind of field is read back from the front of the message, whatever follows |
| `Messages.RoundTripIff` | proxyPool/ProxyClient/ssh/messages.go:300-507 | for every schema Unmarshal undoes Marshal and consumes every byte, exactly for non-empty messages whose name lists survive |
| `Messages.RewriteIff` | proxyPool/ProxyClient/ssh/messages.go:300-417 | marshalling what was read gives the same bytes if and only if the message has the first of its type numbers, its booleans are 0 or 1 and its integers have no redundant sign byte |
| `Messages.AppendNames` | proxyPool/ProxyClient/ssh/messages.go:468-482 | joining in place and writing the length back gives the name list as a string |
| `Messages.MarshalStruct` | proxyPool/ProxyClient/ssh/messages.go:428-507 | the loop over the fields, mpints and name lists in place, writes the message |
| `Messages.UnmarshalStruct` | proxyPool/ProxyClient/ssh/messages.go:300-416 | the loop over the kinds reads the message, with the check of the type number |
| `Certificates.LessIsTotal` | proxyPool/ProxyClient/ssh/certs.go:136-138 | byte strings are totally ordered, so <= is the negation of the reverse order |
| `Certificates.ListIsUnique` | proxyPool/ProxyClient/ssh/certs.go:101-106 | a map has only one list of options in lexical order, so its encoding is determined |
| `Certificates.TuplesRoundTrip` | proxyPool/ProxyClient/ssh/certs.go:101-158 | parseTuples gives back every map that marshalTuples wrote |
| `Certificates.ParsedIsPut` | proxyPool/ProxyClient/ssh/certs.go:121-158 | whatever parseTuples accepts is cut into options with names in strict lexical order, each written as marshalTuples does or with its empty value wrapped |
| `Certificates.AcceptedIff` | proxyPool/ProxyClient/ssh/certs.go:121-158 | below 2^32 bytes, an input gives a map if and only if it is such a sequence of options that lists the map |
| `Certificates.EncodingIsUniqueIff` | proxyPool/ProxyClient/ssh/certs.go:101-158 | what marshalTuples writes is the only input for its map if and only if no option of the map is empty |
| `Certificates.MarshalTuples` | proxyPool/ProxyClient/ssh/certs.go:101-117 | the names are sorted and each option is written with its value wrapped unless empty |
| `Certificates.ParseTuples` | proxyPool/ProxyClient/ssh/certs.go:121-158 | the parsing loop with its order check |
| `CertificateFormat.Layout` | proxyPool/ProxyClient/ssh/certs.go:65-79 | the fields of a certificate on the wire, in their order |
| `CertificateFormat.BodyIsRead` | proxyPool/ProxyClient/ssh/certs.go:160-214 | whatever encodings the options have, a signed certificate is read field by field and an unsigned one is refused |
| `CertificateFormat.RoundTripIff` | proxyPool/ProxyClient/ssh/certs.go:160-214 | parseCert gives back what Marshal wrote if and only if the certificate is signed |
| `CertificateFormat.AcceptedIsBody` | proxyPool/ProxyClient/ssh/certs.go:160-214 | whatever parseCert accepts consists of the fields that it returns, for some encoding of the options |
| `CertificateFormat.OneEncodingIff` | proxyPool/ProxyClient/ssh/certs.go:435-474 | a signed certificate has one encoding only, what Marshal writes, if and only if none of its options is empty |
| `CertificateFormat.SignedThenSignature` | proxyPool/ProxyClient/ssh/certs.go:435-474 | a marshalled certificate is the unsigned one without its last four bytes, followed by the signature as a string |
| `CertificateFormat.MarshalCertificate` | proxyPool/ProxyClient/ssh/certs.go:445-474 | Marshal writes the name, the nonce, the fields of the key and the shared fields |
| `CertificateFormat.BytesForSigning` | proxyPool/ProxyClient/ssh/certs.go:435-441 | what is signed is all of the marshalled certificate up to the signature |
| `CertificateFormat.ParseCertificate` | proxyPool/ProxyClient/ssh/certs.go:160-214 | the parser with its loop over the principals |
| `Field25519.CoefficientsValue` | proxyPool/ProxyClient/crypto/curve25519/curve25519.go:410-419 | the ten sums of products stand for the product modulo 2^255-19 |
| `Field25519.CoefficientBound` | proxyPool/ProxyClient/crypto/curve25519/curve25519.go:422-425 | for limbs within 1.1*2^26 and 1.1*2^25 no sum exceeds its bound |
| `Field25519.StepValue` | proxyPool/ProxyClient/crypto/curve25519/curve25519.go:427-491 | each carry keeps the value modulo 2^255-19, the one out of limb 9 included |
| `Field25519.CarriedLimited` | proxyPool/ProxyClient/crypto/curve25519/curve25519.go:427-491 | the limits on every limb after each of the twelve carries |
| `Field25519.MulCorrect` | proxyPool/ProxyClient/crypto/curve25519/curve25519.go:248-504 | for limbs within the stated bounds feMul's limbs are within 1.1*2^25 and 1.1*2^24 and stand for f*g modulo 2^255-19 |
| `Field25519.CarryStep` | proxyPool/ProxyClient/crypto/curve25519/curve25519.go:427-491 | one carry in 64-bit words without overflow |
| `Field25519.CarryChain` | proxyPool/ProxyClient/crypto/curve25519/curve25519.go:427-491 | the twelve carries in their order leave tight limbs |
| `Field25519.Products` | proxyPool/ProxyClient/crypto/curve25519/curve25519.go:276-419 | the precomputed factors fit 32 bits and the sums of products 64 |
| `Field25519.FeMul` | proxyPool/ProxyClient/crypto/curve25519/curve25519.go:275-504 | feMul without overflow, with h the same array as f or g if need be |
| `Field25519.SquareSumsFold` | proxyPool/ProxyClient/crypto/curve25519/curve25519.go:537-601 | the folded cross terms of feSquare are feMul's sums |
| `Field25519.FeSquare` | proxyPool/ProxyClient/crypto/curve25519/curve25519.go:513-657 | feSquare gives the same limbs as feMul(f, f) |
| `Field25519.SquareTimes` | proxyPool/ProxyClient/crypto/curve25519/curve25519.go:724-783 | a first squaring and n-1 more in place raise to the power 2^n |
| `Field25519.FeInvert` | proxyPool/ProxyClient/crypto/curve25519/curve25519.go:724-783 | feInvert computes z^(2^255-21), that is z^(p-2), in tight limbs |
| `FieldBytes.FoldedIs` | proxyPool/ProxyClient/crypto/curve25519/curve25519.go:162-172 | the nested shifts of feToBytes are one division by 2^255 |
| `FieldBytes.BasicClaim` | proxyPool/ProxyClient/crypto/curve25519/curve25519.go:141-158 | the claim of the comment there, in whole numbers: the estimate gives the quotient by p |
| `FieldBytes.FoldedIsQuotient` | proxyPool/ProxyClient/crypto/curve25519/curve25519.go:162-172 | for tight limbs the quotient leaves a remainder between 0 and p-1 |
| `FieldBytes.ReducedIsCanonical` | proxyPool/ProxyClient/crypto/curve25519/curve25519.go:174-211 | after the carries the limbs are the digits of that remainder, and what is carried out at the top is exactly what may be dropped |
| `FieldBytes.PackedValue` | proxyPool/ProxyClient/crypto/curve25519/curve25519.go:213-245 | the 32 bytes, some of them shared by two limbs, are the value in little-endian order |
| `FieldBytes.FeToBytes` | proxyPool/ProxyClient/crypto/curve25519/curve25519.go:159-246 | feToBytes writes the one number below p that is congruent to the value, without overflow |
| `FieldBytes.LoadedValue` | proxyPool/ProxyClient/crypto/curve25519/curve25519.go:79-90 | the ten loads and shifts keep the value of the 32 bytes |
| `FieldBytes.SettleChain` | proxyPool/ProxyClient/crypto/curve25519/curve25519.go:91-124 | the ten carries keep the value modulo p and leave tight limbs |
| `FieldBytes.FeMul121666` | proxyPool/ProxyClient/crypto/curve25519/curve25519.go:666-721 | feMul121666 multiplies modulo p and leaves tight limbs, without overflow |
| `FieldBytes.FeFromBytes` | proxyPool/ProxyClient/crypto/curve25519/curve25519.go:79-134 | feFromBytes reads all 256 bits into tight limbs |
| `FieldBytes.BytesRoundTrip` | proxyPool/ProxyClient/crypto/curve25519/curve25519.go:79-246 | reading what was written gives the same element |
| `Scalar25519.BitIsOfNumber` | proxyPool/ProxyClient/crypto/curve25519/curve25519.go:801-803 | the bit that the loop takes out of the bytes is that bit of their little-endian number |
| `Scalar25519.ClampedIsScalar` | proxyPool/ProxyClient/crypto/curve25519/curve25519.go:787-791 | clamping gives a multiple of 8 between 2^254 and 2^255 with bits 3 to 253 of the key |
| `Scalar25519.ScalarIsUnique` | proxyPool/ProxyClient/crypto/curve25519/curve25519.go:787-791 | there is only one such number |
| `Ladder25519.SumIsFactor` | proxyPool/ProxyClient/crypto/curve25519/curve25519.go:35-45 | sums and differences of tight elements are within what multiplication accepts |
| `Ladder25519.FeAdd` | proxyPool/ProxyClient/crypto/curve25519/curve25519.go:35-39 | feAdd without overflow |
| `Ladder25519.FeSub` | proxyPool/ProxyClient/crypto/curve25519/curve25519.go:41-45 | feSub without overflow |
| `Ladder25519.XorTwice` | proxyPool/ProxyClient/crypto/curve25519/curve25519.go:58-61 | exclusive or in two's complement takes a number out again |
| `Ladder25519.SwapLimbs` | proxyPool/ProxyClient/crypto/curve25519/curve25519.go:58-61 | the masked exclusive ors exchange the limbs exactly if b is 1 |
| `Ladder25519.FeCSwap` | proxyPool/ProxyClient/crypto/curve25519/curve25519.go:56-63 | the elements change places exactly if b is 1 |
| `Ladder25519.StepLeads` | proxyPool/ProxyClient/crypto/curve25519/curve25519.go:808-825 | the formulas of the loop body, with 121666, are those of section 5 of RFC 7748, with 121665 |
| `Ladder25519.Pass` | proxyPool/ProxyClient/crypto/curve25519/curve25519.go:808-825 | one pass of the loop body is one step of the ladder modulo p, and stays within all bounds |
| `Ladder25519.Climb255` | proxyPool/ProxyClient/crypto/curve25519/curve25519.go:800-829 | the loop with its delayed swaps is the ladder over all 255 bits |
| `Ladder25519.ScalarMult` | proxyPool/ProxyClient/crypto/curve25519/curve25519.go:785-834 | for every key and base the result is the canonical form of what the ladder gives for a number that is a multiple of 8 between 2^254 and 2^255 and has bits 3 to 253 of the key |
| `Ladder25519.ResultIsQuotient` | proxyPool/ProxyClient/crypto/curve25519/curve25519.go:831-833 | if the modulus is prime, such a result times the last z is the last x: the power p-2 divides |
| `Der.LengthIsMinimal` | proxyPool/ProxyClient/crypto/cryptobyte/builder.go:226-246 | the length octets are the fewest that hold the length (section 10.1 of X.690) |
| `Der.ReadWrapped` | proxyPool/ProxyClient/crypto/cryptobyte/asn1.go:662-732 | an element is read back with its tag, contents and rest exactly up to 2^32-7 bytes of contents, and refused above |
| `Der.ReadIsWrapped` | proxyPool/ProxyClient/crypto/cryptobyte/asn1.go:662-732 | whatever readASN1 accepts is what the builder writes: the minimal form |
| `Der.ParseInvertsEncode` | proxyPool/ProxyClient/crypto/cryptobyte/asn1.go:662-732 | the parser returns a forest for exactly its encoding |
| `Der.RoundTripIff` | proxyPool/ProxyClient/crypto/cryptobyte/asn1.go:662-732 | the round trip holds for exactly the forests of low tags whose bodies are at most 2^32-7 bytes |
| `Der.WritableIsNotReadable` | proxyPool/ProxyClient/crypto/cryptobyte/asn1.go:716-721 | a body of 2^32-6 bytes is written and not read back |
| `DerBuilder.PatchLength` | proxyPool/ProxyClient/crypto/cryptobyte/builder.go:261-269 | writing the length from its last byte gives its big-endian form, and something is left exactly if it does not fit |
| `DerBuilder.MakeRoom` | proxyPool/ProxyClient/crypto/cryptobyte/builder.go:218-259 | after moving the contents along, the reserved byte and the extra ones are exactly the length octets |
| `DerBuilder.Seal` | proxyPool/ProxyClient/crypto/cryptobyte/builder.go:200-274 | back-patching puts the length of the contents in front of them, for ASN.1 and fixed-size lengths, or fails if it does not fit |
| `DerBuilder.Builder.Add` | proxyPool/ProxyClient/crypto/cryptobyte/builder.go:276-291 | bytes are appended unless an error happened |
| `DerBuilder.Builder.BeginPrefixed` | proxyPool/ProxyClient/crypto/cryptobyte/builder.go:171-190 | room for the length, and a child that starts behind it |
| `DerBuilder.Builder.FlushChild` | proxyPool/ProxyClient/crypto/cryptobyte/builder.go:200-274 | the child's bytes become the builder's with the length in place, or its error becomes the builder's |
| `DerBuilder.Builder.AddElement` | proxyPool/ProxyClient/crypto/cryptobyte/asn1.go:211-223 | an element is appended in its encoding, nested children included, exactly if all tags are low and all lengths fit |
| `DerBuilder.Build` | proxyPool/ProxyClient/crypto/cryptobyte/builder.go:171-274 | a forest is built exactly if it is buildable, and comes out in its encoding |
| `DerReader.ReadUnsigned` | proxyPool/ProxyClient/crypto/cryptobyte/string.go:84-96 | shifting up to four bytes together gives their big-endian value |
| `DerReader.PrefixedRoundTrip` | proxyPool/ProxyClient/crypto/cryptobyte/string.go:98-119 | what is sealed behind a fixed-size length is found by readLengthPrefixed: the same contents, and what follows them |
| `DerReader.Cursor.Read` | proxyPool/ProxyClient/crypto/cryptobyte/string.go:26-33 | n bytes are taken off the front, or nothing |
| `DerReader.Cursor.ReadLengthPrefixed` | proxyPool/ProxyClient/crypto/cryptobyte/string.go:98-119 | a child is read exactly if it is all there; a missing child still loses its length bytes |
| `DerReader.Cursor.ReadASN1` | proxyPool/ProxyClient/crypto/cryptobyte/asn1.go:662-732 | the cursor moves past the element, or stays if it is refused |
| `DerReader.Cursor.ReadForest` | proxyPool/ProxyClient/crypto/cryptobyte/asn1.go:528-530 | reading to the end gives what the parser gives |
| `DerReader.BuildAndRead` | proxyPool/ProxyClient/crypto/cryptobyte/asn1.go:211-223 | building and reading gives the forest back exactly within the reader's limit |
| `DerInteger.CheckedIff` | proxyPool/ProxyClient/crypto/cryptobyte/asn1.go:277-290 | checkASN1Integer lets exactly one encoding of each number through, the minimal one of section 8.3.2 of ITU-T X.690 |
| `DerInteger.AddSigned` | proxyPool/ProxyClient/crypto/cryptobyte/asn1.go:31-43 | the length loop and the byte loop write that encoding for every int64 |
| `DerInteger.AddUnsigned` | proxyPool/ProxyClient/crypto/cryptobyte/asn1.go:46-58 | and for every uint64 |
| `DerInteger.AddBig` | proxyPool/ProxyClient/crypto/cryptobyte/asn1.go:61-92 | and for every big integer but -1, for which the first of no bytes is asked for |
| `DerInteger.ReadBigIff` | proxyPool/ProxyClient/crypto/cryptobyte/asn1.go:294-312 | readASN1BigInt reads a number from its one encoding and from nothing else |
| `DerInteger.ReadSignedIff` | proxyPool/ProxyClient/crypto/cryptobyte/asn1.go:314-335 | so does readASN1Int64, if and only if the number fits int64 |
| `DerInteger.ReadUnsignedIff` | proxyPool/ProxyClient/crypto/cryptobyte/asn1.go:337-360 | and readASN1Uint64, if and only if it fits uint64 |
| `DerInteger.Asn1Signed` | proxyPool/ProxyClient/crypto/cryptobyte/asn1.go:322-335 | shifting up and down in 64 bits spreads the sign |
| `DerInteger.Asn1Unsigned` | proxyPool/ProxyClient/crypto/cryptobyte/asn1.go:345-360 | nine bytes are accepted only with a leading zero, and nothing is shifted out |
| `DerInteger.ReadInt64` | proxyPool/ProxyClient/crypto/cryptobyte/asn1.go:314-320 | the check and the shifts together read what ReadSignedIff is about |
| `DerInteger.ReadUint64` | proxyPool/ProxyClient/crypto/cryptobyte/asn1.go:337-343 | and what ReadUnsignedIff is about |
| `DerInteger.ReadBigInt` | proxyPool/ProxyClient/crypto/cryptobyte/asn1.go:294-312 | and the inversion what ReadBigIff is about |
| `DerOid.AddBase128Int` | proxyPool/ProxyClient/crypto/cryptobyte/asn1.go:123-142 | seven bits a byte, as few as will do, with the top bit on all but the last; nothing for a negative number |
| `DerOid.ReadBase128Int` | proxyPool/ProxyClient/crypto/cryptobyte/asn1.go:377-392 | the loop reads four bytes at most |
| `DerOid.BaseRoundTrip` | proxyPool/ProxyClient/crypto/cryptobyte/asn1.go:377-392 | a number is read back if and only if it is below 2^28 |
| `DerOid.AddObjectIdentifier` | proxyPool/ProxyClient/crypto/cryptobyte/asn1.go:162-174 | the first two components in one number of 64 bits, then the others |
| `DerOid.FirstIsSigned` | proxyPool/ProxyClient/crypto/cryptobyte/asn1.go:169 | the first two components are added up in 64 bits with a sign |
| `DerOid.ReadObjectIdentifier` | proxyPool/ProxyClient/crypto/cryptobyte/asn1.go:396-431 | one place more than there are bytes is enough for the components |
| `DerOid.RoundTripIff` | proxyPool/ProxyClient/crypto/cryptobyte/asn1.go:162-174 | a valid identifier survives if and only if each of its numbers is below 2^28, overflow of the first one included |
| `DerOid.RewriteIff` | proxyPool/ProxyClient/crypto/cryptobyte/asn1.go:396-431 | what is read is valid, and writing it again gives the same bytes if and only if no number begins with a zero group |
| `DerTyped.ReadTaggedIff` | proxyPool/ProxyClient/crypto/cryptobyte/asn1.go:502-508 | an element with a given tag is read from its one encoding and from nothing else |
| `DerTyped.ReadIntegerIff` | proxyPool/ProxyClient/crypto/cryptobyte/asn1.go:294-312 | so is an integer as a whole element |
| `DerTyped.IdentifierRoundTripIff` | proxyPool/ProxyClient/crypto/cryptobyte/asn1.go:396-431 | an identifier as a whole element is read back if and only if its numbers are below 2^28 |
| `DerTyped.ReadBooleanIff` | proxyPool/ProxyClient/crypto/cryptobyte/asn1.go:227-243 | ReadASN1Boolean reads exactly the INTEGERs 0 and -1 |
| `DerTyped.WrittenBooleanIsRefused` | proxyPool/ProxyClient/crypto/cryptobyte/asn1.go:176-184 | and none of the booleans that AddASN1Boolean writes |
| `Smp.KnowsHonest` | proxyPool/ProxyClient/crypto/otr/smp.go:184-208 | an honest proof of knowledge passes the check of processSMP1 and processSMP2 |
| `Smp.CoordinatesHonest` | proxyPool/ProxyClient/crypto/otr/smp.go:283-313 | an honest proof about the blinded secret passes the check of processSMP2 and processSMP3 |
| `Smp.SamePowerHonest` | proxyPool/ProxyClient/crypto/otr/smp.go:413-429 | an honest proof of equal exponents passes the check of processSMP3 and processSMP4 |
| `Smp.SharedGenerators` | proxyPool/ProxyClient/crypto/otr/smp.go:360-361 | both sides arrive at the same g2 and g3 |
| `Smp.ComparisonExponents` | proxyPool/ProxyClient/crypto/otr/smp.go:514-520 | both final comparisons compare the same two powers |
| `Smp.HonestRun` | proxyPool/ProxyClient/crypto/otr/smp.go:176-554 | in an honest run every check passes, and both comparisons succeed if and only if the secrets are congruent modulo q or q divides one of the four blinding exponents |
| `SmpProofs.Accepts1Iff` | proxyPool/ProxyClient/crypto/otr/smp.go:217-249 | the first message passes exactly if it has six numbers and both challenges are the hashes that their exponents and responses demand |
| `SmpProofs.Accepts2Iff` | proxyPool/ProxyClient/crypto/otr/smp.go:322-376 | the second message passes exactly with eleven numbers and three such proofs |
| `SmpProofs.Accepts3Iff` | proxyPool/ProxyClient/crypto/otr/smp.go:444-495 | the third message passes exactly with eight numbers and two such proofs |
| `SmpProofs.Accepts4Iff` | proxyPool/ProxyClient/crypto/otr/smp.go:525-547 | the fourth message passes exactly with three numbers and such a proof |
| `SmpProofs.AlteredIsRefused` | proxyPool/ProxyClient/crypto/otr/smp.go:217-249 | with another response a proof is refused, unless two inputs have the same hash |
| `SmpProofs.KnowsIsSound` | proxyPool/ProxyClient/crypto/otr/smp.go:229-243 | who answers two challenges for one commitment knows the exponent |
| `SmpProofs.SamePowerIsSound` | proxyPool/ProxyClient/crypto/otr/smp.go:488-501 | and the two elements of a comparison then have the same exponent |
| `SmpProofs.CoordinatesAreSound` | proxyPool/ProxyClient/crypto/otr/smp.go:359-376 | and the two elements of a blinded secret are made of one blinding exponent and one secret |
| `SmpProofs.Responses1` | proxyPool/ProxyClient/crypto/otr/smp.go:184-207 | every response of the first message comes from exactly one draw modulo q, of its own |
| `SmpProofs.Responses2` | proxyPool/ProxyClient/crypto/otr/smp.go:263-313 | the same for the second message |
| `SmpProofs.Responses3` | proxyPool/ProxyClient/crypto/otr/smp.go:383-429 | the same for the third message |
| `SmpProofs.Responses4` | proxyPool/ProxyClient/crypto/otr/smp.go:504-517 | the same for the fourth message |
| `SmpGroup.Order` | proxyPool/ProxyClient/crypto/otr/smp.go:176-182 | no power of g below q is 1, from g != 1, g^q = 1 and q prime |
| `SmpGroup.ModGroupIsLawful` | proxyPool/ProxyClient/crypto/otr/smp.go:176-182 | the powers of g modulo p with ModInverse are a group of that kind |
| `SmpParty.Party.Start` | proxyPool/ProxyClient/crypto/otr/smp.go:49-57 | an unfinished run is aborted first and a new one begins with the first message |
| `SmpCodec.RoundTripIff` | proxyPool/ProxyClient/crypto/otr/otr.go:1397-1409 | the numbers of a message come back if and only if there are at most twenty, whatever follows them |
| `SmpCodec.AskedRoundTripIff` | proxyPool/ProxyClient/crypto/otr/smp.go:74-83 | a question in front of the first message arrives if and only if it contains no NUL |
| `SmpParty.ParseUnparse` | proxyPool/ProxyClient/crypto/otr/smp.go:203-214 | the other side gets the message that was sent, with or without a question |
| `SmpParty.Party.Receive` | proxyPool/ProxyClient/crypto/otr/smp.go:65-159 | a message that cannot be read is an error and leaves the run as it is; any other does what Process does |
| `SmpParty.Party.Process` | proxyPool/ProxyClient/crypto/otr/smp.go:65-159 | an abort or an unexpected message resets; completion only from the third or fourth message; each expected message has its outcome |
| `SmpParty.FourMessages` | proxyPool/ProxyClient/crypto/otr/smp.go:65-159 | the four messages between two honest parties: completion and idle states on both sides, or failure on both with the starter in state 4, the answerer in state 3 and an abort on its way |
| `SmpParty.Authenticate` | proxyPool/ProxyClient/crypto/otr/smp.go:65-159 | both complete exactly if the comparison succeeds and otherwise both report failure; the states of both sides before the abort arrives, and that the answerer is ready after it |
| `SmpParty.OtherSideStarts` | proxyPool/ProxyClient/crypto/otr/smp.go:100-116 | a first message of the former answerer is answered with an abort and resets the former starter exactly if the comparison failed; otherwise it waits for a secret |
| `GfP2.Mul2Correct` | proxyPool/ProxyClient/crypto/bn256/gfp2.go:129-146 | Mul is the product with i^2 = -1 modulo p |
| `GfP2.SquareIsMul2` | proxyPool/ProxyClient/crypto/bn256/gfp2.go:174-193 | Square returns exactly what Mul returns |
| `GfP2.Invert2Correct` | proxyPool/ProxyClient/crypto/bn256/gfp2.go:195-219 | the product with Invert is one modulo p whenever the norm is invertible |
| `Fermat.LittleTheorem` | proxyPool/ProxyClient/crypto/bn256/gfp2.go:200-206 | x^(p-1) is one modulo a prime p that does not divide x |
| `Fermat.TwoSquares` | proxyPool/ProxyClient/crypto/bn256/gfp2.go:200-206 | modulo a prime 4k+3 the norm x^2 + y^2 vanishes only with x and y |
| `TowerUnits.Invert2Iff` | proxyPool/ProxyClient/crypto/bn256/gfp2.go:195-219 | for every modulus, Invert gives the inverse if and only if there is one |
| `TowerUnits.NonzeroIsUnit2` | proxyPool/ProxyClient/crypto/bn256/gfp2.go:195-219 | modulo a prime 4k+3 an element has an inverse if and only if it is not zero |
| `GfP2.Exp2` | proxyPool/ProxyClient/crypto/bn256/gfp2.go:105-125 | Exp is repeated multiplication modulo p |
| `GfP2.Element.Mul` | proxyPool/ProxyClient/crypto/bn256/gfp2.go:129-146 | the receiver gets the product even if it is one of the factors |
| `GfP2.Element.Square` | proxyPool/ProxyClient/crypto/bn256/gfp2.go:174-193 | the receiver gets the square even if it is the argument |
| `GfP2.Element.MulXi` | proxyPool/ProxyClient/crypto/bn256/gfp2.go:155-172 | the receiver gets the product with i + 3 |
| `GfP2.Element.Invert` | proxyPool/ProxyClient/crypto/bn256/gfp2.go:195-219 | the receiver gets the inverse even if it is the argument |
| `Powering.SquareAndMultiply` | proxyPool/ProxyClient/crypto/bn256/gfp12.go:133-153 | square-and-multiply over any monoid, up to a congruence, is repeated multiplication |
| `GfP6.KaratsubaIsTimes` | proxyPool/ProxyClient/crypto/bn256/gfp6.go:118-172 | the Karatsuba product is the product with tau^3 = xi |
| `GfP6.Mul6Correct` | proxyPool/ProxyClient/crypto/bn256/gfp6.go:118-172 | Mul is that product modulo p, through its partly reduced intermediate values |
| `GfP6.SquareIsMul6` | proxyPool/ProxyClient/crypto/bn256/gfp6.go:201-239 | Square returns exactly what Mul returns |
| `GfP6.Tau6Of` | proxyPool/ProxyClient/crypto/bn256/gfp6.go:189-199 | MulTau multiplies by tau |
| `GfP6.CofactorTimes` | proxyPool/ProxyClient/crypto/bn256/gfp6.go:241-286 | a times its cofactor is the norm, an element of the field below |
| `GfP6.Invert6Correct` | proxyPool/ProxyClient/crypto/bn256/gfp6.go:241-296 | the product with Invert is one modulo p whenever the norm is invertible |
| `TowerUnits.CofactorTwiceX` | proxyPool/ProxyClient/crypto/bn256/gfp6.go:255-279 | the cofactor of the cofactor is the element times the norm, in the coefficient of tau^2 |
| `TowerUnits.CofactorTwiceY` | proxyPool/ProxyClient/crypto/bn256/gfp6.go:255-279 | and in the coefficient of tau |
| `TowerUnits.Invert6Iff` | proxyPool/ProxyClient/crypto/bn256/gfp6.go:241-296 | modulo a prime 4k+3, Invert gives the inverse if and only if there is one |
| `TowerUnits.IsField6Iff` | proxyPool/ProxyClient/crypto/bn256/gfp6.go:15-16 | every element but zero has an inverse if and only if xi is not a cube |
| `GfP12.ExactIsLawful` | proxyPool/ProxyClient/crypto/bn256/gfp6.go:118-199 | the product of GF(p^6) is associative, commutative, distributive, linear in tau and has a one |
| `GfP12.Mul12Correct` | proxyPool/ProxyClient/crypto/bn256/gfp12.go:107-125 | Mul is the product with omega^2 = tau modulo p |
| `GfP12.Square12Correct` | proxyPool/ProxyClient/crypto/bn256/gfp12.go:155-178 | complex squaring is the square modulo p |
| `GfP12.Invert12Correct` | proxyPool/ProxyClient/crypto/bn256/gfp12.go:180-200 | the product with Invert is one modulo p whenever the norm is invertible |
| `TowerUnits.NormIsMultiplicative` | proxyPool/ProxyClient/crypto/bn256/gfp12.go:184-193 | the norm of a product is the product of the norms |
| `TowerUnits.Invert12Iff` | proxyPool/ProxyClient/crypto/bn256/gfp12.go:180-200 | modulo a prime 4k+3, Invert gives the inverse if and only if there is one |
| `TowerUnits.IsField12Iff` | proxyPool/ProxyClient/crypto/bn256/gfp12.go:14-15 | if xi is not a cube, every element but zero has an inverse if and only if tau is not a square |
| `GfP12.ExactIsMonoid` | proxyPool/ProxyClient/crypto/bn256/gfp12.go:107-125 | the product of GF(p^12) is associative and has a one |
| `GfP12.Exp12` | proxyPool/ProxyClient/crypto/bn256/gfp12.go:133-153 | Exp is repeated multiplication modulo p |
| `GfP12.MulLineCorrect` | proxyPool/ProxyClient/crypto/bn256/optate.go:154-182 | mulLine multiplies by (a*tau + b)*omega + c modulo p |
| `TowerObjects.Element6.Mul` | proxyPool/ProxyClient/crypto/bn256/gfp6.go:118-172 | the cells of the receiver get the product even if it is one of the factors |
| `TowerObjects.Element6.Square` | proxyPool/ProxyClient/crypto/bn256/gfp6.go:201-239 | the cells of the receiver get the square even if it is the argument |
| `TowerObjects.Element6.MulTau` | proxyPool/ProxyClient/crypto/bn256/gfp6.go:189-199 | the receiver gets the product with tau, in place too |
| `TowerObjects.Element6.Invert` | proxyPool/ProxyClient/crypto/bn256/gfp6.go:241-296 | the receiver gets the inverse even if it is the argument |
| `TowerObjects.Element12.Mul` | proxyPool/ProxyClient/crypto/bn256/gfp12.go:107-125 | the cells of the receiver get the product even if it is one of the factors |
| `TowerObjects.Element12.Square` | proxyPool/ProxyClient/crypto/bn256/gfp12.go:155-178 | the receiver gets the square even if it is the argument |
| `TowerObjects.Element12.Invert` | proxyPool/ProxyClient/crypto/bn256/gfp12.go:180-200 | the receiver gets the inverse even if it is the argument |
| `TowerObjects.MulLineInto` | proxyPool/ProxyClient/crypto/bn256/optate.go:154-182 | ret is multiplied in place, through the values that the code overwrites on the way |
| `Blake2b.AddBlock` | proxyPool/ProxyClient/crypto/blake2b/blake2b_generic.go:31-35 | the two-word counter goes up by a block with its carry |
| `Blake2b.TakeBack` | proxyPool/ProxyClient/crypto/blake2b/blake2b.go:115-119 | the counter goes down by what the last block lacks with its borrow, below zero if need be |
| `Blake2b.HashBlocks` | proxyPool/ProxyClient/crypto/blake2b/blake2b_generic.go:27-35 | the block loop compresses every block with the number of bytes up to its end |
| `Blake2b.HashAfterChain` | proxyPool/ProxyClient/crypto/blake2b/blake2b.go:99-125 | whole blocks can be compressed ahead as long as something is left for the final one |
| `Blake2b.Padded` | proxyPool/ProxyClient/crypto/blake2b/blake2b.go:113-114 | the last block begins with the bytes that are left and is zero behind them |
| `Blake2b.HashIsByBlocks` | proxyPool/ProxyClient/crypto/blake2b/blake2b.go:99-125 | hashing is the compression of a sequence of blocks with byte counts, the last of which ends with zeros and is marked as final |
| `Blake2b.Finish` | proxyPool/ProxyClient/crypto/blake2b/blake2b.go:190-207 | the final block is compressed with the message length as counter (section 3.3 of RFC 7693) |
| `Blake2b.CheckSum` | proxyPool/ProxyClient/crypto/blake2b/blake2b.go:99-125 | checkSum is the hash of section 3.3 of RFC 7693, as a sequence of compressed blocks |
| `Blake2b.Digest.constructor` | proxyPool/ProxyClient/crypto/blake2b/blake2b.go:143-151 | an unkeyed digest starts with nothing written |
| `Blake2b.Digest.SetKey` | proxyPool/ProxyClient/crypto/blake2b/blake2b.go:147-150 | a key, with zeros behind it, counts as a first block written |
| `Blake2b.Digest.Write` | proxyPool/ProxyClient/crypto/blake2b/blake2b.go:153-182 | what was written is appended, and a block is always kept back for the end |
| `Blake2b.Digest.Sum` | proxyPool/ProxyClient/crypto/blake2b/blake2b.go:184-207 | the digest is the hash of everything written, as a sequence of compressed blocks, and writing can go on |
| `Blake2b.SplitIndependent` | proxyPool/ProxyClient/crypto/blake2b/blake2b.go:99-207 | for every way of splitting a message into writes the digest equals the one-shot checksum |
| `Blake2x.Xof.constructor` | proxyPool/ProxyClient/crypto/blake2b/blake2x.go:96-111 | reading starts at the first byte |
| `Blake2x.Xof.Read` | proxyPool/ProxyClient/crypto/blake2b/blake2x.go:113-170 | a read gives the next bytes of the one output, all that are left or as many as asked for, across nodes and with the shorter last node |
| `Blake2x.ReadParts` | proxyPool/ProxyClient/crypto/blake2b/blake2x.go:113-170 | reads of any sizes add up to the output from where they started |
| `Blake2x.OutputBegins` | proxyPool/ProxyClient/crypto/blake2b/blake2x.go:113-170 | byte i of the output is byte i % 64 of node i / 64, and the last node is configured with the bytes that are left, all others with 64 |
| `Blake2x.ReadAll` | proxyPool/ProxyClient/crypto/blake2b/blake2x.go:113-170 | reads of any sizes add up to the beginning of that output, all of it once a read is refused |
| `Hkdf.Reader.Remains` | proxyPool/ProxyClient/crypto/hkdf/hkdf.go:36 | the bytes left, counted in one wrapping byte, are those of T(1)..T(255) not yet given |
| `Hkdf.Reader.Read` | proxyPool/ProxyClient/crypto/hkdf/hkdf.go:33-62 | the next bytes, or none if the stream is shorter than that |
| `Hkdf.Reader.GivenIsPrefix` | proxyPool/ProxyClient/crypto/hkdf/hkdf.go:33-62 | what was given is the beginning of T(1)..T(255) (section 2.3 of RFC 5869) |
| `Hkdf.ExpansionIsStream` | proxyPool/ProxyClient/crypto/hkdf/hkdf.go:44-52 | the output is made of blocks of which each is the MAC of the block before it, the info and its number, from 1 on (section 2.3 of RFC 5869) |
| `Hkdf.ReadAll` | proxyPool/ProxyClient/crypto/hkdf/hkdf.go:33-62 | however reads are split they add up to the beginning of T(1)..T(255), and one is refused exactly when it would go beyond |
| `ShadowStream.BumpAddsOne` | proxyPool/ProxyClient/shadowaead/stream.go:185-192 | increment adds one to the little-endian number modulo its size |
| `ShadowStream.NoRepeat` | proxyPool/ProxyClient/shadowaead/stream.go:185-192 | no nonce comes back before the counter wraps |
| `ShadowStream.Increment` | proxyPool/ProxyClient/shadowaead/stream.go:185-192 | the loop carries as long as bytes wrap to zero |
| `ShadowStream.TwoNonces` | proxyPool/ProxyClient/shadowaead/doc.go:17-20 | record k uses nonces 2k and 2k+1 |
| `ShadowStream.Writer.constructor` | proxyPool/ProxyClient/shadowaead/stream.go:24-31 | a writer starts with nonce zero |
| `ShadowStream.Writer.WriteRecord` | proxyPool/ProxyClient/shadowaead/stream.go:48-64 | a record is its length in two bytes, the more significant one first, and its payload, sealed under the next two nonces |
| `ShadowStream.Writer.Write` | proxyPool/ProxyClient/shadowaead/stream.go:34-75 | the bytes written are cut into non-empty records of at most 0x3fff bytes |
| `ShadowStream.StreamOfWire` | proxyPool/ProxyClient/shadowaead/stream.go:98-129 | what a writer sent is delivered, whatever follows it |
| `ShadowStream.HonestStream` | proxyPool/ProxyClient/shadowaead/stream.go:98-129 | all that was written is delivered, followed by a regular end |
| `ShadowStream.CutOff` | proxyPool/ProxyClient/shadowaead/stream.go:101-121 | of a stream that is cut off the complete records are delivered; the cut is reported as a regular end if and only if it falls between records or directly behind a sealed length |
| `ShadowStream.Authentic` | proxyPool/ProxyClient/shadowaead/stream.go:98-129 | if only sealed texts open, what is delivered was sealed under the next two nonces, length first |
| `ShadowStream.Reader.constructor` | proxyPool/ProxyClient/shadowaead/stream.go:88-95 | a reader of any input starts with nonce zero |
| `ShadowStream.Reader.ReadRecord` | proxyPool/ProxyClient/shadowaead/stream.go:98-129 | on any input a record, the end, a short record or a failed opening, with the nonces used up and the input left |
| `ShadowStream.Reader.Read` | proxyPool/ProxyClient/shadowaead/stream.go:131-146 | on any input a read gives the next bytes of what is to be delivered, leftovers first, nothing only for an empty record, and an error exactly when the next record gives one and nothing is left |
| `ShadowStream.RoundTrip` | proxyPool/ProxyClient/shadowaead/stream.go:42-146 | for any sizes of writes and reads the reader gets the written bytes in order, all of them once it sees the end |

## Left out

- Application code: the mahjong bot, the proxy pool, scanners, crawlers, HTTP and SOCKS proxies.
- Real ciphers, MACs, hashes, signatures and key exchange methods: they are parameters with laws.
- Timing, scheduling fairness and liveness: only safety, over all interleavings.
- ChannelRuns: a rejected channel and SendRequest with a reply are not steps, and each stream is written by one goroutine at a time, as the comment at channel.go:245-247 demands; writes are shorter than 2^32 bytes.
- ChannelObject.Channel.WriteExtended: packetPool, which only saves allocations.
- Mux: more than 2^32-1 slots at once, global requests, and the order of messages to Go channels.
- Rekeying: FirstKexFollows, DISCONNECT, IGNORE and DEBUG packets, failed agreements and signature checks; a key exchange method is one message each way.
- Handshake: what the connection answers to each push is an argument, and the messages of an exchange itself are not on the wire of this model; the thresholds are in the class only, and their limit of bytes does not change with the cipher.
- GcmFraming.PacketRoundTrip: for packets whose length fits 32 bits, since the length field wraps beyond that; the same holds for the other two framings.
- CbcFraming: blocks of 8 and 16 bytes, the only ones in use; the extra reads that hide which check failed.
- Messages.RoundTripIff: for messages of less than 2^32 bytes, a first type number that is not zero, and a rest field only at the end, as Marshal documents.
- Der: high tag numbers, which both sides refuse, fixed-size builders, and continuations that panic; times and bit strings inside elements.
- Ladder25519.ScalarMult: that 2^255-19 is prime, which ResultIsQuotient needs, and that the ladder multiplies points of the curve.
- SmpGroup.ModGroupIsLawful: that the constants of the code satisfy Suitable; ModInverse of an element without an inverse is 0 here.
- SmpParty: messages saved until the secret is known, and the hash that makes the secret.
- TowerObjects: the pool of temporaries, which only saves allocations; Exp, which is on values, and Frobenius, the Miller loop and bilinearity.
- TowerUnits: that the constant p is a prime, that xi is not a cube and tau not a square modulo it.
- Blake2b.Digest.Write: for messages of less than 2^128 bytes, the limit of section 3.3 of RFC 7693; the output bytes are the words of the state and are not written out.
- Blake2x: the hashing of the root into a node is a parameter.
- ShadowStream: WriteTo, write errors of the connection and the salt.
- CertificateFormat: parsePubKey is a parameter, with the laws that the fields of a key are read back and, for OneEncodingIff, have one encoding; CheckCert, and the table of the six type names. Certificates are shorter than 2^32 bytes.
- Assembly versions, blake2s, md4, blowfish, cast5, pbkdf2, pkcs12, acme, ocsp, openpgp, and the ssh session, tcpip and streamlocal code: easier members of the same families or plumbing.
