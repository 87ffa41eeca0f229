# A verified model of the VeriMark fingerprint driver

This project models the C driver of a match-on-chip USB fingerprint reader and proves what its layers promise.

- `bytes.dfy`: byte strings and integer encodings.
- `framing.dfy`, `transport.dfy`: bulk data over EP0 control transfers. Padding, chunking, the read loop, the asynchronous
  command machine and the Python reference, all against an arbitrary device. `interrupt.dfy`: the wait for an interrupt packet.
- `crypto.dfy`, `codec.dfy`, `records.dfy`: the cryptographic core around uninterpreted primitives, the certificate and
  pairing codecs, the two framing layers of TLS. `tlswire.dfy`: what TLS 1.2 (RFC 5246, RFC 5288) derives and puts on the
  wire, byte by byte and label by label, without the functions the client computes with.
- `channel.dfy`: the custom TLS 1.2 channel as a class, with one function per operation that says what it does to the state.
  `handshake.dfy` (what replies are accepted), `sessions.dfy` (soundness over runs), `honest.dfy` (completeness against an
  honest sensor), `delivery.dfy` (the record layer between honest ends) and `integrity.dfy` (the record layer against any
  input, over whole runs) prove theorems about these functions.
- `mocsend.dfy`: match-on-chip commands end to end, one and whole sessions. `capture.dfy`, `enroll.dfy`, `verify.dfy`: the
  state machines against an arbitrary sensor and clock. `capturelaw.dfy`, `enrolllaw.dfy`: tables that say, from the history
  of exchanges alone, what is sent next, what the user is told and how it ends; every run obeys them. `wire.dfy`: enrolment
  together with its captures.
- `open.dfy`: opening the device, trust on first use over histories of opens. `bringup.dfy`: the layers composed.

The driver's objects are classes, its loops are loops, and each method's `ensures` ties the new state to a function of the
old one. The theorems are about these functions, over all inputs and all runs. Where a function could be wrong together with
its method, a second description in literal bytes, or from the history alone, stands beside it and a theorem connects the two:
the sensor in `honest.dfy` reads and derives with `TlsWire` and not with the client's functions. The primitives (HMAC, SHA, ECDH, ECDSA,
AEAD) are fields of a `Crypto` value. Laws such as "open undoes seal" are stated where a theorem needs them, and `LawsHaveAModel`,
`GuardedIsPossible`, `SafeRunsExist`, `HonestIsPossible` and `ReadyIsPossible` show that the assumptions can be met.

## What the code does where its documentation says otherwise

- The driver tolerates 25 timeouts before a chunk and makes 26 attempts; the Python reference makes 25 attempts.
  `WhereTheyDiffer` is a device at which they part, `DriverIsReferenceIff` says exactly when for any device, and `SameReadIff`
  says it in terms of the delays of a device that serves a reply.
- The comment above `verimark_verify_ssm_done` says that a retry error is reported and also passed to the completion. The code
  steals the error for the report, so the completion carries none (`VerifyOutcome`; `EightMisses` is such a run).
- The write plan has room for 8 chunks. A longer command is cut and the receiver waits for the rest (`OverlongCommandIsCut`).
- A sensor may hold more than 65 objects, but `list` then fails, because the reply exceeds its read budget (`ListIsComplete`).
- A failing `unwrap` can lose data that it has authenticated (`StrayByteLosesRecord`). `CallLosesIff` says exactly for which
  buffers a call does, and `CompleteIffHarmless` for which buffers a run delivers everything.
- A reply that exceeds the read budget fails its command, and with it every later command of the session (`SessionDelivers`).
- A pairing save that falls short leaves a file that stops every later open of that sensor (`ShortSaveIsFinal`).
- Enrolment announces 8 stages. With a coverage that only gains bits it completes at stage 7 or earlier (`StagesStrictlyIncrease`).

## Model

| member | source | states |
|---|---|---|
| Framing.WriteChunks | driver/verimark-transport-framing.c:35-81 | the planner fills in exactly the first eight (or fewer) entries of the plan that position alone determines, and nothing else |
| Framing.ReferenceWrite | prototype/control_comm.py:60-78 | the Python loop sends exactly the transfers of the complete plan |
| Framing.SentIsCompleteIff | driver/verimark-transport-framing.c:55-81 | driver and reference send the same transfers exactly when the padded length is at most 32768 |
| Framing.ReceivesCommand | driver/verimark-transport-framing.c:20-81 | a receiver that looks only at chunk bytes, flags and the low three length bits adds exactly the command to what it had |
| Framing.SelfDelimiting | driver/verimark-transport-framing.c:20-81 | any list of commands of at most 32768 bytes each is recovered exactly, in order |
| Framing.OverlongCommandIsCut | driver/verimark-transport-framing.c:58-60 | a longer command is cut after 32768 bytes and the receiver never sees its end |
| Transport.CtrlWriteSync | driver/verimark.c:76-118 | the synchronous write loop issues the transfers in order and stops at the first that fails |
| Transport.CtrlReadSync | driver/verimark.c:124-184 | the synchronous read loop is the read exchange with 25 retries for each chunk, whatever the device answers |
| Transport.ReferenceRead | prototype/control_comm.py:80-105 | the Python read loop is the same exchange with one retry less |
| Transport.CmdSsm.constructor | driver/verimark-transport.c:242-285 | a new command machine stands before the whole synchronous exchange of its command |
| Transport.CmdSsm.WriteStep | driver/verimark-transport.c:166-193 | submitting a chunk keeps the whole exchange unchanged and advances |
| Transport.CmdSsm.ReadStep | driver/verimark-transport.c:194-223 | submitting a control-IN keeps the whole exchange unchanged and makes progress |
| Transport.CmdSsm.Start | driver/verimark-transport.c:226-240 | the machine ends, and with the result of the synchronous exchange |
| Transport.Cmd | driver/verimark-transport.c:242-285 | for every device the asynchronous command issues the same requests and ends with the same result as the synchronous one |
| Transport.ReadBound | driver/verimark.c:129-179 | a read returns at most rmax bytes and issues at most (retries + 1) control-INs for each chunk |
| Transport.DriverReadBound | driver/verimark-transport.c:114-223 | at most 26 control-INs for each 4096 bytes |
| Transport.ReadReturnsReply | driver/verimark-transport-framing.c:88-107 | a reply served in chunks, with at most 25 timeouts before each, arrives cut to the budget |
| Transport.ReferenceFrom | driver/verimark.c:124-184 | from any point of a read: same run, or the reference gives up where the driver tries once more |
| Transport.DriverIsReferenceIff | prototype/control_comm.py:80-105 | driver and reference read the same exactly if no chunk is missing 25 times in a row |
| Transport.SameReadIff | prototype/control_comm.py:80-105 | if a reply is never late more than 25 times, driver and reference do the same exactly if no chunk that is asked for is late 25 times |
| Transport.WhereTheyDiffer | prototype/control_comm.py:88-99 | a first chunk that is late 25 times: the driver gets the reply, the reference gives up |
| Transport.WriteIsRight | driver/verimark.c:76-118 | leg by leg, every write: the transfers in order up to the first that is not accepted |
| Transport.DriverReadIsRight | driver/verimark-transport-framing.c:88-107 | leg by leg, every read against any device: each control-IN asks for what is left, at most 4096; 0x4000 exactly after a first chunk, 0x8000 exactly for a whole 4096; it ends, with that result, at a fault, the 26th timeout in a row, a short chunk or the last byte |
| Transport.ReferenceReadIsRight | prototype/control_comm.py:80-105 | the same for the reference, with 25 timeouts |
| Transport.CommandIsRight | driver/verimark-transport.c:242-285 | a command is such a write, and after one that succeeds such a read |
| Interrupt.FirstWantedPacket | driver/verimark-transport.c:330-434 | over every run: no read is left out; one callback, exactly when and with what the reads say (first wanted packet, error, or "nothing" past the deadline); each read is submitted for 500 ms or the fewest that reach the deadline |
| Interrupt.WaitsForEver | driver/verimark-transport.c:452-454 | without a deadline only a wanted packet or an error ends the wait |
| TlsCrypto.Prf | driver/verimark-tls-crypto.c:20-66 | for any positive hash size and any output length the loop writes the first bytes of P_hash (RFC 5246 section 5) and ends |
| TlsCrypto.BlocksGrow | driver/verimark-tls-crypto.c:45-60 | the blocks written so far are a prefix of any later stage, each as long as the hash |
| TlsCrypto.EnoughBlocks | driver/verimark-tls-crypto.c:45-60 | any number of blocks that suffices gives the same output |
| TlsCrypto.PHashPrefix | driver/verimark-tls-crypto.c:20-66 | a longer output extends a shorter one |
| TlsCrypto.PrfLength | driver/verimark-tls-crypto.c:20-66 | the output has the length that was asked for |
| TlsWire.PHashIsBlocks | driver/verimark-tls-crypto.c:20-66 | byte by byte: block j of the output is HMAC(secret, A(j+1) followed by the seed), where A(j+1) is the seed hashed j + 1 times |
| TlsWire.TwoBlocks | driver/verimark-tls-crypto.c:20-66 | up to 96 bytes of output, written out as nested HMACs |
| TlsWire.LabelBytes | driver/verimark-tls-crypto.c:68-99 | the four labels in bytes |
| TlsCrypto.KeysAreUnique | driver/verimark-tls-crypto.c:81-99 | the 72-byte block determines the four keys: disjoint fields that cover it |
| TlsCrypto.DeriveMasterSecret | driver/verimark-tls-crypto.c:68-79 | the master secret is the PRF of the premaster over client and server random |
| TlsCrypto.DeriveKeys | driver/verimark-tls-crypto.c:81-99 | the keys are those that the 72-byte block determines, seeded client first |
| TlsWire.DerivesAsTls | driver/verimark-tls-crypto.c:68-99 | master secret and keys are those of RFC 5246: label, then client random, then server random; client key 0..31, server key 32..63, client salt 64..67, server salt 68..71 |
| TlsWire.VerifiesAsTls | driver/verimark-tls.c:388-393 | the 12 bytes of a Finished are the start of the first block over label and digest |
| TlsCrypto.BuildAad | driver/verimark-tls-crypto.c:195-206 | the shifts write the big-endian sequence number, type, version and 16-bit length |
| TlsCrypto.AadIdentifies | driver/verimark-tls-crypto.c:195-206 | equal additional data means the same sequence number, type and length modulo 2^16 |
| TlsWire.AadIsAddData | driver/verimark-tls-crypto.c:195-206 | the 13 bytes: eight of sequence number, type, 3, 3, two of length |
| TlsWire.ProtectsAsTls | driver/verimark-tls-crypto.c:208-244 | a fragment is the explicit nonce and then the seal under key, salt with nonce, and those 13 bytes |
| TlsWire.UnprotectsAsTls | driver/verimark-tls-crypto.c:246-288 | a fragment is opened with its first eight bytes as nonce and those 13 bytes for its length less 24 |
| TlsCrypto.UnwrapUndoesWrap | driver/verimark-tls-crypto.c:208-288 | unwrap undoes wrap; a wrapped record is 24 bytes longer |
| PairingCodec.LeFieldToBe32 | driver/verimark-tls-crypto.c:101-115 | accepts a little-endian field exactly if bytes 32 and up are zero, and reverses the rest |
| PairingCodec.Be32ToLeField | driver/verimark-tls-crypto.c:117-123 | writes the field and nothing outside it |
| PairingCodec.FieldKeepsValue | driver/verimark-tls-crypto.c:101-115 | accepted exactly if the value is below 2^256; the big-endian scalar has the same value |
| PairingCodec.FieldRoundTrip | driver/verimark-tls-crypto.c:101-123 | the two conversions undo each other |
| PairingCodec.CertParse | driver/verimark-tls-crypto.c:125-147 | parses the certificate at any offset of a buffer |
| PairingCodec.CertSerialize | driver/verimark-tls-crypto.c:149-164 | writes the certificate's 400 bytes and nothing else |
| PairingCodec.CertAcceptedIff | driver/verimark-tls-crypto.c:125-147 | accepted exactly if magic and curve match, both coordinates are below 2^256 and the signature size is at most 256; values are kept |
| PairingCodec.CertRoundTrip | driver/verimark-tls-crypto.c:125-164 | a serialized certificate parses to itself exactly if its signature size is at most 256 |
| PairingCodec.CertBackAgain | driver/verimark-tls-crypto.c:125-164 | serializing a parsed certificate gives the bytes back except for the zeroed pad |
| PairingCodec.CertReadIff | driver/verimark-tls-crypto.c:125-147 | bytes parse to a certificate exactly if each field has its value at its place; byte 140 is not looked at |
| PairingCodec.PairingReadIff | driver/verimark-tls-crypto.c:176-183 | 868 bytes parse to a pairing exactly if they are its scalar, the host's and then the sensor's certificate |
| PairingCodec.PairingLoad | driver/verimark-tls-crypto.c:176-183 | loads scalar and both certificates, or fails |
| PairingCodec.PairingSave | driver/verimark-tls-crypto.c:185-193 | writes the 868 bytes of a pairing |
| PairingCodec.PairingRoundTrip | driver/verimark-tls-crypto.c:176-193 | load after save gives the pairing back exactly if both signature sizes are at most 256 |
| PairingCodec.PairingBackAgain | driver/verimark-tls-crypto.c:176-193 | save after load gives the file back except for the two zeroed pad bytes |
| Records.SplitIffPrinted | driver/verimark-tls.c:63-69 | a buffer splits into these records exactly if it is their concatenation: one reading only |
| Records.SplitMsgsIffPrinted | driver/verimark-tls.c:73-82 | the same for handshake messages inside a stream |
| Records.RecordLayout | driver/verimark-tls.c:63-69 | type, version, and the length with its high byte first |
| Records.MessageLayout | driver/verimark-tls.c:73-82 | type, and three bytes of length with the high byte first |
| Channel.ReadRecord | driver/verimark-tls.c:224-233 | a record is read exactly if header and body are whole |
| Channel.ReadMsg | driver/verimark-tls.c:236-244 | a handshake message is read exactly if header and body are whole |
| Channel.VerimarkTls.CollectStream | driver/verimark-tls.c:220-233 | the stream carried by whole handshake records, or failure |
| Channel.VerimarkTls.ParseMessages | driver/verimark-tls.c:235-297 | the verdict, transcript and server random of the walk over the messages |
| Channel.VerimarkTls.ProcessRt2 | driver/verimark-tls.c:421-470 | the second reply: verdict and exact new state |
| Channel.VerimarkTls.Handshake | driver/verimark-tls.c:476-504 | the whole handshake over an arbitrary callback: result and exact new state |
| Channel.VerimarkTls.Unwrap | driver/verimark-tls.c:542-597 | the data of all records, or nothing; the counter it reached |
| Handshake.StreamIsFragments | driver/verimark-tls.c:220-233 | the stream is the concatenated fragments exactly if the buffer splits into handshake records |
| Handshake.FragmentationIndependence | driver/verimark-tls.c:216-297 | two replies that carry the same stream get the same verdict, random and transcript |
| Handshake.HelloOkIff | driver/verimark-tls.c:250-267 | a ServerHello is accepted exactly if it is version and random, a session id, the suite c0 2e and at least one more byte |
| Handshake.CertRequestOkIff | driver/verimark-tls.c:270-281 | a CertificateRequest is accepted exactly if its list of types contains 64 |
| Handshake.Rt1AcceptedIff | driver/verimark-tls.c:216-297 | accepted exactly if the stream is well-formed 02, 0b, 0d messages with at least one 02 and a single final 0e; then all of it is hashed |
| Handshake.Rt2AcceptedIff | driver/verimark-tls.c:421-470 | accepted exactly if every record is a change of cipher or, after one, a Finished that opens and carries the expected PRF, and there is a Finished |
| Sessions.MessagesAsTls | driver/verimark-tls.c:173-410 | the five handshake messages of the client, byte by byte |
| Sessions.HandshakeSucceedsIff | driver/verimark-tls.c:476-504 | exactly when a handshake succeeds: a pairing, a well-formed flight, key, signature and shared secret available, and a second reply that proves the master secret |
| Sessions.HandshakeSends | driver/verimark-tls.c:476-504 | what a handshake puts on the wire, in every case: nothing, the hello, or the hello and the second request, both byte by byte |
| Sessions.HandshakeSound | driver/verimark-tls.c:476-504 | after a successful handshake every field of the channel is what the bytes exchanged determine: digest over exactly five parts and no Finished, RFC 5246 secret and keys, both requests byte by byte, and the server's proof of the master secret |
| Sessions.FailedHandshakeChangesNoVerdict | driver/verimark-tls.c:476-504 | only success establishes a channel |
| Sessions.EstablishedIff | driver/verimark-tls.c:421-627 | over every run, established exactly between a successful handshake and a close |
| Sessions.EstablishedIsJustified | driver/verimark-tls.c:71-91 | over every run with one handshake, an established channel rests on a justified handshake from an empty transcript, with its keys |
| Sessions.NeverEstablishedAlone | driver/verimark-tls.c:510-560 | without a handshake everything passes in the clear |
| Sessions.SequenceCountsRecords | driver/verimark-tls-crypto.c:208-288 | over every run the send counter is the number of records sealed under the present keys (modulo 2^64), a Finished first |
| Sessions.WrapOnWire | driver/verimark-tls.c:510-540 | the bytes of an application record, and the channel afterwards |
| Sessions.UnwrapOnWire | driver/verimark-tls.c:542-597 | result and channel for a buffer with one record of any type |
| Sessions.CloseOnWire | driver/verimark-tls.c:599-627 | closing sends exactly one alert record 01 00 under the next number if the channel was open, and otherwise nothing |
| HonestServer.FlightAccepted | driver/tests/gen_handshake_vectors.py:120-154 | a channel accepts an honest sensor's flight however it is cut into records |
| HonestServer.RequestsAreRead | driver/tests/gen_handshake_vectors.py:120-154 | a sensor that cuts the two requests at fixed places finds the client's hello, random, messages, point and Finished |
| HonestServer.ServerFollows | driver/tests/gen_handshake_vectors.py:120-154 | from the bytes alone, with its own derivation in nested HMACs, labels and offsets, the sensor arrives at the client's session and verifies its Finished |
| HonestServer.ReplyAccepted | driver/verimark-tls.c:421-470 | the sensor's Finished is accepted and counted |
| HonestServer.HandshakeCompletes | driver/verimark-tls.c:304-504 | for all randoms, keys and signatures the handshake with an honest sensor succeeds: same secret, mirrored keys, and at both ends both counters are 1 |
| HonestServer.HonestIsPossible | driver/tests/gen_handshake_vectors.py:120-154 | there are such a sensor, client and primitives, for every random |
| Delivery.UnwrapsAll | driver/verimark-tls.c:542-597 | all records of a list of messages, in one buffer, unwrap to the messages |
| Delivery.StreamArrives | driver/verimark-tls.c:510-597 | messages of at most 65511 bytes, handed over as whole records in any grouping, arrive as their concatenation |
| Delivery.StrayByteLosesRecord | driver/verimark-tls.c:563-592 | a good record and one stray byte: the call fails, the counter moves on and the record's data is gone |
| Integrity.UnwrapAcceptedIff | driver/verimark-tls.c:542-597 | `unwrap` accepts a buffer exactly if it is whole records of application data that all open, each with the next sequence number; it then returns what they open to |
| Integrity.OpensExactlyNext | driver/verimark-tls-crypto.c:246-288 | with an AEAD that opens only what was sealed, a record opens exactly if it is the peer's record with this number |
| Integrity.GuardedIsPossible | driver/verimark-tls-crypto.c:246-288 | the assumption on the AEAD can be met for every peer history |
| Integrity.WalkEnds | driver/verimark-tls.c:542-597 | result and counter of a call from the buffer, the peer's log and the place in it alone |
| Integrity.CallAcceptedIff | driver/verimark-tls.c:542-597 | a call succeeds exactly if the buffer is whole records that carry the peer's next application data |
| Integrity.CallLosesIff | driver/verimark-tls.c:563-592 | a call loses application data exactly if the buffer starts with records that carry some of the peer's next data but does not consist of such records; it loses the data of all the leading ones |
| Integrity.RunIsSafe | driver/verimark-tls.c:542-597 | any buffers in any order on an open channel: each successful call returns the peer's next data |
| Integrity.DeliveryAccount | driver/verimark-tls.c:542-597 | every authenticated byte of application data is delivered in order or was lost to a failing call |
| Integrity.CompleteIffHarmless | driver/verimark-tls.c:563-592 | a run delivers the peer's data without a gap exactly if every buffer, where its turn came, was whole records with the next data or started with none |
| Integrity.OpenCallsAreCalls | driver/verimark-tls.c:510-627 | wraps and the close do not disturb the receiving side of a channel |
| Integrity.ChannelIsSafe | driver/verimark-tls.c:421-627 | over every run of a new channel with one handshake: the handshake read exactly the Finished messages at the start of the peer's log, and every unwrap while the channel is open returns the next contiguous slice; complete exactly if every buffer was harmless |
| Integrity.ClosedPassesThrough | driver/verimark-tls.c:552-557 | before the handshake and after a close, `unwrap` returns its input and changes nothing |
| Integrity.SafeRunsExist | driver/verimark-tls.c:421-627 | the assumptions of the theorem on runs can be met, whatever the peer seals after its Finished and whatever operations follow |
| Integrity.MessageCrossesIff | driver/verimark-tls.c:63-69 | a message crosses exactly if it has at most 65511 bytes |
| MocSend.Send | driver/verimark-moc.c:470-548 | wrap, command, unwrap, status word, composed over any device; result, channel and device afterwards |
| MocSend.CommandArrives | driver/verimark-moc.c:504-548 | a live sensor sees exactly the command, and its reply waits |
| MocSend.SendDelivers | driver/verimark-moc.c:470-548 | the callback gets exactly the reply and its status word if it has at most max(hint + 35, 483) bytes; otherwise the command fails and the ends are out of step by one |
| MocSend.SendFails | driver/verimark-moc.c:470-548 | once the ends are out of step, a command still reaches the sensor and fails, and the ends stay out of step |
| MocSend.SessionDelivers | driver/verimark-moc.c:470-548 | for any list of commands the sensor sees exactly the list; replies arrive in order up to the first that does not fit, and from there on every command fails |
| MocSend.RepliesAt | driver/verimark-moc.c:470-548 | command by command: its reply arrives exactly if it and all replies before it fit |
| MocSend.ParseObjects | driver/verimark-moc.c:271-311 | the loop yields status and the ids in order, or nothing if the reply is short |
| MocSend.List | driver/verimark-moc.c:1534-1613 | the ids of a good reply with status 0, else an error |
| MocSend.ListOfIff | driver/verimark-moc.c:271-311 | the list is taken exactly from replies that are status 0, the number of ids, the ids and anything |
| MocSend.ListIsComplete | driver/verimark-moc.c:1534-1613 | the list is exactly the sensor's ids in order if there are at most 65, and fails if there are more |
| Capture.CaptureSsm.SawFrame | driver/verimark-moc.c:686-692 | true exactly if one of the event records carried is of type 0x18 |
| Capture.CaptureSsm.OnWaitFrameDone | driver/verimark-moc.c:647-715 | one poll: exact new state for every status, length and clock |
| Capture.CaptureSsm.Deliver | driver/verimark-moc.c:576-833 | every callback makes exactly the specified step |
| Capture.RunKeepsOrder | driver/verimark-moc.c:742-833 | over every run the commands sent are a prefix of arm, wait, arm, acquire, polls, mask clear, finish |
| Capture.CaptureOutcome | driver/verimark-moc.c:647-740 | a finished run completed exactly if nothing went wrong and a status-0 poll carried 0x18; without trouble it sent one mask clear and one finish at the end |
| Capture.EveryCommandIsAnswered | driver/verimark-moc.c:742-833 | what came back belongs, one by one, to what was sent |
| Capture.CounterIsBasePlusEvents | driver/verimark-moc.c:590-696 | the event counter is the last base plus all events reported since, modulo 2^16 |
| Capture.PollsAreBounded | driver/verimark-moc.c:625-715 | if no timer fires early there are at most 268 EVENT_READs among the commands sent |
| CaptureLaw.CaptureObeysLaw | driver/verimark-moc.c:576-848 | over every run the exchanges, each command and the end are what a table over the history alone says |
| CaptureLaw.EndsAsLastExchange | driver/verimark-moc.c:597-740 | a capture is over exactly when its last exchange ends it: an error with that error, no press with a retry, a poll with a status other than 0 and 0x0405 to 0x0407 with that status, the frame finish with success if a frame was seen and a retry if not |
| Enroll.BuildFinalize | driver/verimark-moc.c:118-135 | fills the buffer with the template and both ids spliced in |
| Enroll.FinalizeHolds | driver/verimark-moc.c:118-135 | bytes 19..34 are the template id, 49..76 the SID, all others the template's |
| Enroll.EnrollSsm.Deliver | driver/verimark-moc.c:974-1265 | every callback makes exactly the specified step |
| Enroll.EnrollRun | driver/verimark-moc.c:974-1265 | over every run: the trace grammar, one completion as the last word, stage and coverage of the accepted samples, the id of the only full sample |
| Enroll.EnrolledMeans | driver/verimark-moc.c:1042-1265 | a completed run sent captures, dedup, create, rounds of captures and a sample, finalize, commit; finalize and print carry resp[2:18] of the only sample with coverage 0x7f |
| Enroll.EnrolledIffCommitted | driver/verimark-moc.c:1120-1265 | a print is handed out exactly if the sensor answered the commit with status 0 |
| Enroll.StagesStrictlyIncrease | driver/verimark-moc.c:1068-1094 | with a coverage that only gains bits at most 7 samples are taken and the stages reported are 1, 2, 3 and so on |
| EnrollLaw.EnrolmentObeysLaw | driver/verimark-moc.c:974-1265 | over every run the exchanges, each command, the end and every word to the user are what a table over the history alone says |
| EnrollLaw.FailsIffGivenUp | driver/verimark-moc.c:974-1265 | an enrolment has failed with an error exactly if its last exchange is a capture broken with it at or past the deadline, a command broken with it, a refused create, finalize or commit, or a rejected sample at or past the deadline |
| EnrollLaw.CanStillEnrol | driver/verimark-moc.c:974-1265 | every run that is not over can still enrol, whatever the duplicate check answers, and hands out the id that is then minted |
| EnrollLaw.NewFingerEnrols | driver/verimark-moc.c:998-1018 | the shortest enrolment, for any reply to the duplicate check |
| WireTrace.BothInStep | driver/verimark-moc.c:974-1230 | over every run of enrolment and captures together: the wire carries the enrolment's commands with each capture spelt out, and the event counter runs through all captures |
| WireTrace.CapturesAreHeard | driver/verimark-moc.c:974-1066 | over every run each capture command of the enrolment hears how its own capture ended: completed, or failed with that error |
| WireTrace.EnrolmentOnTheWire | driver/verimark-moc.c:742-1265 | a completed enrolment on the wire: captures that were tried again failed, the last before the duplicate check and before each sample completed |
| WireTrace.CompletedCapture | driver/verimark-moc.c:647-833 | such a completed capture sent the whole capture sequence and saw 0x18 |
| Verify.FindFirst | driver/verimark-moc.c:1396-1411 | the loop finds the first matching print, or none exists |
| Verify.VerifySsm.Deliver | driver/verimark-moc.c:1313-1501 | every callback makes exactly the specified step |
| Verify.AtMostOneMatch | driver/verimark-moc.c:1313-1455 | over every run at most 8 captures and then at most one match command |
| Verify.VerifyObeysTable | driver/verimark-moc.c:1313-1455 | over every run the exchanges, the commands and the end are what the history says: a capture follows only a broken capture, before the eighth and before the deadline |
| Verify.VerifyOutcome | driver/verimark-moc.c:1364-1481 | nothing before the end; then one completion, with an error exactly if there is no report; found, not found, retry and completion error, each exactly when the last exchange asks for it |
| Verify.EightMisses | driver/verimark-moc.c:1457-1481 | eight captures without a finger: the retry error is reported and the completion carries none |
| Verify.GivesUpIff | driver/verimark-moc.c:1313-1336 | a run ends in a capture only at the eighth or past the deadline, and every other failure was earlier and in time |
| Verify.EnrolledPrintVerifies | driver/verimark-moc.c:1338-1362 | a print from an enrolment is reported exactly if the sensor echoes the id minted in that enrolment |
| Open.Verimark.BuildHostCert | driver/verimark-pairing.c:89-121 | the host certificate over its own first 142 bytes, or failure, before anything is sent |
| Open.Verimark.PairingDo | driver/verimark-pairing.c:140-175 | the pairing from a good 802-byte reply, and whether the 0x93 command went out |
| Open.Verimark.SaveFile | driver/verimark-pairing.c:196-232 | exact disk afterwards; a short write leaves a short file |
| Open.Verimark.LoadFile | driver/verimark-pairing.c:234-256 | missing, unusable or a pairing |
| Open.Verimark.Open | driver/verimark.c:318-477 | result, disk, fields and acts of one open |
| Open.FilesAreNeverOverwritten | driver/verimark.c:426-474 | over every history no existing file changes, no pairing command is sent while one exists, and each handshake uses what the file holds |
| Open.PairingIsForLife | driver/verimark.c:426-474 | all handshakes with one sensor in a history use one pairing |
| Open.FileDecides | driver/verimark.c:442-453 | while a file exists, loadable or corrupt, only what it holds is ever used |
| Open.PairStepIff | driver/verimark-pairing.c:89-175 | the command is 0x93, the 142 signed bytes, size and signature with its fill; the pairing is the host's scalar, reply[2..402] as its certificate and reply[402..802] as the sensor's, exactly |
| Open.SendsPairIff | driver/verimark.c:426-474 | exactly when an open sends the pairing command, and that command |
| Open.DiskAfterOpen | driver/verimark-pairing.c:196-232 | the disk after an open: scalar and reply bytes with the two pads zeroed, as much as could be written, exactly after a pairing |
| Open.TrustOnFirstUse | driver/verimark-pairing.c:140-256 | after one saved pairing every later handshake uses the scalar that was drawn and the two certificates in the reply's bytes; the file holds those bytes |
| Open.ShortSaveIsFinal | driver/verimark-pairing.c:222-256 | after a short save no later open pairs or reaches the handshake |
| Open.ReachesHandshakeIff | driver/verimark.c:426-474 | exactly when an open reaches the handshake, and with which pairing, in terms of file, reply and command bytes |
| Open.OpenIsAllOrNothing | driver/verimark.c:318-477 | an open succeeds exactly if it reaches a handshake that succeeds; it then has that channel and keeps the stored pairing; failure leaves nothing, and without the interface nothing changes |
| BringUp.EndsMeet | driver/verimark-tls.c:304-504 | after the handshake each end expects what the other sends next; the sensor's end is the one it made from the two requests |
| BringUp.OpenThenList | driver/verimark.c:426-474 | an open with an honest sensor succeeds and its first `list` is complete |
| BringUp.ReadyIsPossible | driver/verimark.c:426-474 | there are such an open and such a sensor, for any objects and any randomness |

## Handlers

The remaining methods are the driver's handlers and callbacks. Each ensures exactly one case of the step function of its
module, which the rows above reason about.

- `Transport.CmdSsm`: `OnWriteChunkDone`, `OnReadChunkDone` (driver/verimark-transport.c:91-163).
- `Transport.CtrlCmdSync` (driver/verimark.c:190-198).
- `Interrupt.IntrSsm`: constructor, `Handler`, `OnReadDone`, `Completed` (driver/verimark-transport.c:330-466).
- `Channel.VerimarkTls`: `AppendMsg`, `BuildClientHello`, `ProcessRt1`, `BuildClientAuth`, `DeriveSession`, `BuildRt2`, `Wrap`,
  `Close` (driver/verimark-tls.c:63-627).
- `Capture.CaptureSsm`: constructor, `Handler`, `OnWaitPressDone`, `OnEventConfigDone` (driver/verimark-moc.c:576-848).
- `Enroll.EnrollSsm`: constructor, `Handler`, `OnCaptureDone`, `OnSampleDone`, `OnCheckedDone`, `MarkCompleted`, `MarkFailed`
  (driver/verimark-moc.c:974-1287).
- `Verify.VerifySsm`: `OnCaptureDone`, `OnMatchDone`, `SsmDone` (driver/verimark-moc.c:1313-1501).
- `Open.Verimark`: `OpenFail`, `Close` (driver/verimark.c:318-502).

## Left out

- OpenSSL and GLib: the primitives are uninterpreted, and failures to allocate or to initialise a digest do not occur. Buffers have no 32-bit length limit.
- libfprint: only "next, jump, complete, fail" of its state machines is kept; cancellation, reference counts, feature flags and USB endpoint discovery are not. Claiming the interface is one yes-or-no input of an open.
- The 256-byte cap of `verimark_tls_io_sync` on a handshake reply: the handshake theorems are about the channel's callback, not about USB.
- Randomness, clocks and file errors are inputs; file modes, directories and the hex form of the sensor id are not modelled.
- The HS signing key and the SID: arbitrary constants here, not derived.
- GET_VERSION over USB: its reply is an input of the open.
- Capture inside verification: one event there; `Capture` has the machine itself, and `WireTrace` composes it with enrolment only.
- Delete, clear and the interrupt drain: one or two straight-line steps.
- Test seams and recorded vectors: single instances of the theorems.
- Integrity.ChannelIsSafe: states safety for peers that have sealed fewer than 2^64 records; after that the counter wraps and records could repeat.
- Sessions.EstablishedIsJustified: assumes one handshake in a run, as the driver makes; the transcript is never reset.
- HonestServer.HandshakeCompletes: the sensor does not check the client's certificate or signature, as in the stub it follows.
- Transport.Cmd: does not model the pause before a retried control-IN; it changes no request.
