# Booster: a verified model of the telemetry path and of four units beside it

Booster receives telemetry from Teltonika devices over TCP, publishes it to a topic and stores it in a table. This
project models that path from the bytes on the wire to the row in the table, and four smaller units whose rules are
easy to break: the payment mandate of a trip, the worker that decodes tax documents, and two groups of decision and
search loops (the canary gate, the choice of a route, the wrapping of a certificate's text and the price of an early
payment). Every statement is for all inputs, all runs or all interleavings.

Check it with `dafny verify dfyconfig.toml` (Dafny 4.11).

## How it is laid out

Where the source computes a value, the model is a function and lemmas about it. Where the source changes things step
by step, there is a class or a method with loops, proved equal to a function of the state before, and the lemmas are
about that function. Where steps of several parties interleave, there is a state machine whose events are what
happens between two waits, with invariants over all its runs. The central functions are described twice: by what they
compute, and by a statement in numbers, indices and fields that names none of them.

- **Codec** (`Bytes`, `ShiftRegister`, `Crc16Ibm`, `Crc32C`, `Avl`, `AvlParse`, `AvlExact`, `AvlReader`, `Layout`,
  `Refusals`, `Handshake`, `Simulator`). `Avl` is the wire layout written as an encoder; `AvlParse` is the parser
  position by position; `AvlExact` shows that the parser accepts exactly the encodings; `AvlReader` is the cursor with
  its loops. `Layout` is the wire format a second time, in numbers, and `Refusals` what each damage is refused for.
- **Connection** (`Framing`, `Connection`, `ConnectionHandler`, `Answers`, `Session`, `Interleaving`, `SequentialRuns`,
  `StopAndWait`, `Labels`). How a stream of chunks is cut, first with runs that finish before the next chunk, then with
  runs that overlap, what an acknowledgement then means, and whose records they are. `Answers` says what each message is
  answered with. The two parsers are parameters here, and only what depends on them asks for the codec's.
- **Delivery and lifecycle** (`Persist`, `Delivery`, `Uplink`, `Lifecycle`, `Gateway`, `RateLimiter`). Device, topic,
  consumer and table under lost acknowledgements and redelivery; how a connection takes part in it; the connection cap
  and the drain on shutdown.
- **Messages** (`Wire`, `CrashTrace`, `WireTrace`). The JSON form of a packet, the forensic trace of a crash, and what
  the one does to the other.
- **Payments** (`MandatoCobro`, `FloatTerceros`, `Tarifa`), **documents** (`Retention`, `Documents`,
  `DocumentWorker`), **decisions** (`Canary`, `EcoRouting`, `TextWrap`).

## What was found

These are properties that the source does not have as stated, each with an input that shows it and, where there is
one, the exact condition under which it holds.

- `parseAvlPacket` does not check that it stopped at the end of the buffer: bytes after the CRC are accepted
  (`AvlExact.TrailingByteAccepted`); re-encoding gives the buffer back exactly when there are none (`AvlExact.ReEncode`).
- A chunk that arrives while the IMEI is being looked up is read as a second handshake. The stream is cut right if and
  only if no such chunk is long enough to be read (`Interleaving.CanonicalIffNeverMisread`); a first packet sent early
  closes the connection (`Interleaving.EagerPacketCloses`), and a repeated handshake leaves it open and cut wrong
  (`Interleaving.RepeatedHandshakeGarbles`).
- The comment at `apps/telemetry-tcp-gateway/src/connection-handler.ts:278-281` says that the full count is
  acknowledged even if a publication fails. The code acknowledges 0 and closes; the model follows the code.
- An IMEI is accepted with the high bit of its digits set, because of how `ascii` decodes (`Handshake.HighBitsIgnored`).
- A record after the last JavaScript Date is acknowledged to the device like any other
  (`Delivery.LateInstantIsAcknowledged`) and never stored. Its message stays in the topic or goes to the dead letters,
  unless it carried no vehicle and was discarded (`Delivery.WhereLateInstantsAre`).
- The IMEI of a connection is set before its look-up and the vehicle after it. If a device says a second IMEI during the
  look-up and the second look-up ends first, its records are published under the second IMEI and the vehicle of the
  first (`Labels.CrossedLookUpsMislabel`). Without a misread chunk they never are (`Labels.RecordsKeepTheirDevice`).
- An acknowledgement carries a count and no name. If a device completes a packet while another is in flight, it can
  hear the count of the second before the first fails, and lets go of records that were never published
  (`StopAndWait.FirstPacketIsLostFromStart`, `StopAndWait.BargingMisnames`). Nothing in the gateway prevents it. It does
  not happen to a device that waits for each answer (`StopAndWait.AcknowledgedAreTheFirst`); `Delivery` is about such
  devices, and `Uplink` derives its steps from what the handler does.
- A crash trace can differ on the two sides of the wire: an entry of variable length is skipped before the trip and is
  a number after it, even one that is not a number. `WireTrace.TraceSurvives` says for which packets it does not. The
  comment at `packages/codec8-parser/src/crash-trace.ts:140-142` expects the last sample of such an entry to be seen;
  the gateway's side sees none.
- A correction by hand is lost if a worker that claimed the document before it writes after it: the row ends as failed
  or decoded, and a failed one is claimed again (`Documents.CorrectionSurvivesIff`).
- A window closed at both ends and exactly `windowMs` long can hold twice the maximum, 60 events for 30 a minute: those
  at its start are no longer counted at its end. Closed windows keep the maximum if and only if they are shorter
  (`RateLimiter.ClosedWindowIff`); the exact most for every length is in `RateLimiter.ClosedWindowsAreBounded` and
  `RateLimiter.ClosedWindowsAreFilled`.
- With a negative payment term the daily job asks for a mora that would be refused (`MandatoCobro.MoraSiYSoloSiValida`).
- A correction without a date, read before the worker anchors a document and written after it, leaves the document
  with the retention of one that has no issue date (`Documents.StaleCorrectionBreaksTheTerm`).
- The claim of a document has two holders after a failure mark that took effect but reported an error, or after the
  clean-up releases a row that is still being worked on (`Documents.GivenAwayIsSharedNext`).
- The comment at `apps/document-service/src/process-document-uploaded.ts:120-123` says that the next delivery repairs
  a row whose recovery write failed. It does not: the delivery is skipped and acknowledged
  (`Documents.RedeliveryDoesNotRecover`), and only the clean-up job or a person frees the row. The same happens when
  the claim takes effect but its answer is lost, which the recovery does not cover.
- The canary gate promotes on Monitoring alone, without the probe having reached the application, if and only if the
  Job was marked as fine or as not needed (`Canary.MarkedUnreachedIff`). The deployment writes neither mark on such a
  result, so what it writes never passes that way (`Canary.OnlyHealthyProbesPass`).
- The arrival guardrail is checked for routes on emissions only. Routes on time keep it too if and only if the guardrail
  and the improvement margin do not add up to less than zero, or the improvement asked for is the whole duration, so
  that no route is on time (`EcoRouting.GuardrailIff`).

## Model

| member | source | states |
|---|---|---|
| `Crc16Ibm.BuildTable` | packages/codec8-parser/src/crc16.ts:22-32 | the 256-entry table holds, for every byte, what eight shifts of the register make of it |
| `Crc16Ibm.TableCrc` | packages/codec8-parser/src/crc16.ts:41-58 | on every range of every byte string the table loop computes the bit-serial CRC-16/IBM |
| `Crc16Ibm.BitSerialCrc` | scripts/load-test/telemetry-gateway.ts:210-219 | so does the load test's loop without a table: the two implementations agree |
| `Crc16Ibm.CheckValue` | packages/codec8-parser/test/crc16.test.ts:7-9 | the digits 1 to 9 have CRC 0xBB3D |
| `Crc16Ibm.Crc16Linear` | packages/codec8-parser/src/crc16.ts:41-58 | the CRC of a bytewise exclusive or is the exclusive or of the CRCs |
| `Crc16Ibm.Crc16DetectsBursts` | packages/codec8-parser/src/crc16.ts:41-58 | strings of one length that differ only within two neighbouring bytes never share a CRC (one changed byte included) |
| `Crc32C.BuildTable` | packages/certificate-generator/src/crc32c.ts:10-18 | the table of the Castagnoli CRC, as for CRC-16 |
| `Crc32C.TableCrc` | packages/certificate-generator/src/crc32c.ts:24-30 | the table loop computes the bit-serial CRC-32C of section B.4 of RFC 3720 |
| `Crc32C.CheckValue` | packages/certificate-generator/src/crc32c.test.ts:5-7 | the digits 1 to 9 have CRC 0xE3069283 |
| `Crc32C.Crc32CDetectsBursts` | packages/certificate-generator/src/crc32c.ts:24-30 | strings of one length that differ only within four neighbouring bytes never share a CRC |
| `AvlExact.UIntExact` | packages/codec8-parser/src/buffer-reader.ts:26-73 | a bounds-checked unsigned read returns v at next if and only if v fits and its big-endian bytes lie there |
| `AvlExact.IntExact` | packages/codec8-parser/src/buffer-reader.ts:40-80 | the same for signed reads and two's complement |
| `AvlExact.EntryExact` | packages/codec8-parser/src/avl-packet.ts:156-192 | an IO entry is read if and only if it is a valid entry of its group and its encoding lies there |
| `AvlExact.GroupsExact` | packages/codec8-parser/src/avl-packet.ts:154-193 | the counted groups give exactly the entries sorted by group, and are read from exactly their encoding |
| `AvlExact.IoExact` | packages/codec8-parser/src/avl-packet.ts:146-203 | an IO section is read if and only if its total is its number of entries, they come in group order, and its encoding lies there |
| `AvlExact.GpsExact` | packages/codec8-parser/src/avl-packet.ts:129-144 | the position block: six fields, two of them signed 32-bit and one signed 16-bit |
| `AvlExact.RecordExact` | packages/codec8-parser/src/avl-packet.ts:110-127 | a record is read if and only if it is valid (priority 0, 1 or 2) and its encoding lies there |
| `AvlExact.DataExact` | packages/codec8-parser/src/avl-packet.ts:75-98 | the data field: a supported codec, and two record counts equal to the number of records |
| `AvlExact.ParsesExactlyTheFrames` | packages/codec8-parser/src/avl-packet.ts:46-118 | for every byte string: the parser accepts exactly the frames of valid packets, with the right CRC, followed or not by bytes the length field covers |
| `AvlExact.RoundTrip` | packages/codec8-parser/src/avl-packet.ts:46-118 | parsing the encoding of any valid Codec 8 or 8E packet returns that packet and stops at the end |
| `AvlExact.ReEncode` | packages/codec8-parser/src/avl-packet.ts:62-118 | re-encoding what was parsed gives the buffer back if and only if the cursor stopped at its end |
| `AvlExact.TrailingByteAccepted` | packages/codec8-parser/src/avl-packet.ts:102-117 | the input that shows the end is not checked: a packet of no records with a byte after its CRC is accepted |
| `AvlExact.EncodingInjective` | packages/codec8-parser/src/avl-packet.ts:46-118 | two valid packets never share an encoding |
| `AvlExact.CorruptionDetected` | packages/codec8-parser/src/avl-packet.ts:97-112 | a fully read frame with one or two neighbouring data bytes changed is never fully read again |
| `Layout.ReadsExactlyTheLayout` | packages/codec8-parser/src/avl-packet.ts:46-203 | for every byte string: what the parser reads to the last byte are exactly the packets in range laid out in numbers, ids, counts and totals of one byte in Codec 0x08 and of two in 0x8E, groups of 1, 2, 4 and 8 bytes and then variable length |
| `Layout.GpsOffsets` | packages/codec8-parser/src/avl-packet.ts:129-144 | longitude, latitude, altitude, angle, satellites and speed lie at 0, 4, 8, 10, 12 and 13 of their block |
| `Layout.EmptyIo8E` | packages/codec8-parser/src/avl-packet.ts:146-193 | fourteen zero bytes are the IO section of a Codec 8E record without elements |
| `Refusals.HeaderRefusals` | packages/codec8-parser/src/avl-packet.ts:46-73 | a header is refused for the first of four reasons: too short, a preamble that is not zero, a length under 3, a length that is not the rest |
| `Refusals.CodecRefused` | packages/codec8-parser/src/avl-packet.ts:75-82 | a codec that is neither 0x08 nor 0x8E is refused with its id, at offset 8 |
| `Refusals.PriorityRefused` | packages/codec8-parser/src/avl-packet.ts:110-119 | a priority over 2 in any record, after any records, is refused with its value and place |
| `Refusals.TotalRefused` | packages/codec8-parser/src/avl-packet.ts:195-200 | so is a total that is not the number of IO elements, in any record |
| `Refusals.CountRefused` | packages/codec8-parser/src/avl-packet.ts:89-95 | and a second record count that is not the first |
| `Refusals.ChecksumRefused` | packages/codec8-parser/src/avl-packet.ts:99-112 | after good data: an upper half of the checksum that is not zero, and then a lower one that is not the CRC |
| `Refusals.UnderrunsAreTrue` | packages/codec8-parser/src/buffer-reader.ts:26-97 | an error about missing bytes reports an offset in the buffer, what was left there, and more needed than that, however deep the read |
| `AvlReader.BufferReader.ReadUInt` | packages/codec8-parser/src/buffer-reader.ts:35-73 | one cursor read: value and new offset, or the error |
| `AvlReader.BufferReader.ReadInt` | packages/codec8-parser/src/buffer-reader.ts:42-80 | one signed cursor read |
| `AvlReader.BufferReader.ReadBytes` | packages/codec8-parser/src/buffer-reader.ts:89-97 | one block read |
| `AvlReader.ReadGroup` | packages/codec8-parser/src/avl-packet.ts:155-180 | the loop of one counted group appends its entries to those before, or stops at the first error |
| `AvlReader.ReadIo` | packages/codec8-parser/src/avl-packet.ts:146-203 | the cursor code of an IO section is the specification proved exact |
| `AvlReader.ReadRecord` | packages/codec8-parser/src/avl-packet.ts:110-127 | the cursor code of a record is the specification proved exact |
| `AvlReader.ParseAvlPacket` | packages/codec8-parser/src/avl-packet.ts:46-118 | the loops over the shared cursor, with the table CRC, return exactly the packet or error of the specification |
| `Handshake.ParsesExactlyTheHandshakes` | packages/codec8-parser/src/handshake.ts:16-28 | accepted handshakes: 8 to 20 bytes that are digits once their high bits are dropped, as the ascii decoding does |
| `Handshake.HandshakesInBytes` | packages/codec8-parser/src/handshake.ts:16-28 | the same in numbers: two bytes of length from 8 to 20 and as many bytes that are 48 to 57 without their high bit; each way to fail has its error |
| `Handshake.HandshakeRoundTrip` | scripts/demo/simulate-envio-telemetry.ts:274-279 | what a device sends is read as its IMEI, whatever follows |
| `Handshake.HighBitsIgnored` | packages/codec8-parser/src/handshake.ts:23-26 | setting the high bit of every digit does not change the IMEI read |
| `Handshake.ParseImeiHandshake` | packages/codec8-parser/src/handshake.ts:16-28 | the cursor code of the handshake is its specification |
| `Handshake.AckRoundTrip` | packages/codec8-parser/src/avl-packet.ts:218-225 | an acknowledgement is read back as its count, and counts that do not fit 32 bits are refused |
| `Simulator.BuildAvlPacket` | scripts/demo/simulate-envio-telemetry.ts:304-380 | the demo encoder writes the encoding of the packet it means, and throws exactly when a field is out of range |
| `Simulator.SimulatorIsUnderstood` | scripts/demo/simulate-envio-telemetry.ts:298-380 | the parser reads back exactly that packet, to the last byte |
| `Simulator.InRangeIffValid` | scripts/demo/simulate-envio-telemetry.ts:281-346 | no write throws if and only if the packet is valid for the wire format |
| `Simulator.MeansTheOptions` | scripts/demo/simulate-envio-telemetry.ts:281-375 | the packet meant, field by field: degrees times ten million, angle, speed and temperature rounded, and the thirteen IO elements in numbers |
| `Simulator.RoundIsNearest` | scripts/demo/simulate-envio-telemetry.ts:281-333 | `Math.round`: the nearest integer, halves up |
| `Simulator.RemIsTruncated` | scripts/demo/simulate-envio-telemetry.ts:328-328 | the remainder of the angle by 360 has the sign of the angle, as JavaScript's has |
| `Framing.NextStable` | apps/telemetry-tcp-gateway/src/connection-handler.ts:176-233 | bytes that arrive later never change a cut that was already possible |
| `Framing.LegalIsCanonical` | apps/telemetry-tcp-gateway/src/connection-handler.ts:208-233 | there is one way to cut a stream into handshake, pings and packets |
| `Framing.CutsInBytes` | apps/telemetry-tcp-gateway/src/connection-handler.ts:61-233 | the cuts in numbers: handshake and packet as long as their length fields say, 0xff a ping, any other start of eight bytes refused, less waited for |
| `Connection.ChunkingIndependence` | apps/telemetry-tcp-gateway/src/connection-handler.ts:135-159 | every way of splitting the same bytes gives the same handshake, counters, publications, writes and leftover |
| `Connection.StepProgress` | apps/telemetry-tcp-gateway/src/connection-handler.ts:211-233 | every turn of the loop shrinks the buffer or closes the socket |
| `Connection.AcknowledgedMeansPublished` | apps/telemetry-tcp-gateway/src/connection-handler.ts:267-304 | acknowledged counts add up to the records published, at most those received, each right after its publications |
| `Connection.RecordsKeepTheirDevice` | apps/telemetry-tcp-gateway/src/connection-handler.ts:186-274 | the handshake is answered as it went, and nothing is published for another IMEI or vehicle than its own |
| `Answers.EveryMessageIsAnswered` | apps/telemetry-tcp-gateway/src/connection-handler.ts:162-306 | the log is the answers to the messages taken, one after the other: 0x01 or 0x00 and closing to a handshake; to a packet, first itself to the crash topic if there is one and a record has priority 2 and event 247, then its records in order, then the count if all got there and 0 and closing if not; 0 and closing to one that does not parse |
| `ConnectionHandler.SkipNetworkPings` | apps/telemetry-tcp-gateway/src/connection-handler.ts:61-67 | the loop that drops leading pings |
| `ConnectionHandler.Handler.OnData` | apps/telemetry-tcp-gateway/src/connection-handler.ts:135-159 | the mutable connection after a chunk is the specification's |
| `ConnectionHandler.Handler.ProcessBuffer` | apps/telemetry-tcp-gateway/src/connection-handler.ts:162-306 | the loop over the buffer, its parse, publications, acknowledgement and error paths |
| `ConnectionHandler.Handler.PublishRecords` | apps/telemetry-tcp-gateway/src/connection-handler.ts:268-276 | all records are offered, and the whole fails if one does |
| `Session.AcceptedIsCut` | apps/telemetry-tcp-gateway/src/connection-handler.ts:216-233 | every buffer the parser accepts is carved as one packet |
| `Session.DeviceIsServed` | apps/telemetry-tcp-gateway/src/connection-handler.ts:99-306 | a device that sends its IMEI and packets, in any chunks and with any pings, has every record published once, in order, and reads back 0x01 and then the record count of each packet |
| `Interleaving.RunConserves` | apps/telemetry-tcp-gateway/src/connection-handler.ts:135-306 | overlapping runs: messages taken plus buffer are the bytes received; every record of a packet taken is, as often as it was taken, published, in flight or lost; acknowledgements add up to the records published |
| `Interleaving.CanonicalIffNeverMisread` | apps/telemetry-tcp-gateway/src/connection-handler.ts:176-193 | overlapping runs take the messages of the stream if no chunk was misread during the look-up and, when the connection is open, only if none was |
| `Interleaving.SilentIsNeverMisread` | apps/telemetry-tcp-gateway/src/connection-handler.ts:176-193 | a device silent from its handshake to the answer is never misread |
| `Interleaving.RepeatedHandshakeGarbles` | apps/telemetry-tcp-gateway/src/connection-handler.ts:176-193 | the handshake sent again during the look-up leaves a connection open that cuts its stream wrong |
| `Interleaving.AllServedWhenQuiet` | apps/telemetry-tcp-gateway/src/connection-handler.ts:162-306 | once quiet and open, each complete message was taken once and the records published are exactly its packets', all acknowledged |
| `Interleaving.NothingAfterClose` | apps/telemetry-tcp-gateway/src/connection-handler.ts:131-159 | once the socket closed, the runs in flight end without a byte more from the network |
| `Interleaving.EagerPacketCloses` | apps/telemetry-tcp-gateway/src/connection-handler.ts:176-205 | a packet that arrives during the look-up closes the connection |
| `Interleaving.MisreadGarbles` | apps/telemetry-tcp-gateway/src/connection-handler.ts:180-205 | a misread chunk closes the connection or takes a second handshake |
| `SequentialRuns.ChunkLeads` | apps/telemetry-tcp-gateway/src/connection-handler.ts:135-306 | a run that nothing overlaps is one of the interleavings, with the same state |
| `StopAndWait.AcknowledgedAreTheFirst` | apps/telemetry-tcp-gateway/src/connection-handler.ts:208-305 | if no chunk completes a message while a run is in flight, in every reachable state the records published are the first of the stream, as many as were acknowledged |
| `StopAndWait.BargingMisnames` | apps/telemetry-tcp-gateway/src/connection-handler.ts:208-305 | a chunk that completes a packet while another is in flight can be acknowledged first, and the count then names the published records if and only if those are the first of both packets too |
| `StopAndWait.FirstPacketIsLost` | apps/telemetry-tcp-gateway/src/connection-handler.ts:267-304 | the input: two packets without waiting, the second published and acknowledged, the first lost |
| `StopAndWait.FirstPacketIsLostFromStart` | apps/telemetry-tcp-gateway/src/connection-handler.ts:162-304 | the same from a fresh connection, after any handshake and look-up |
| `Labels.RecordsKeepTheirDevice` | apps/telemetry-tcp-gateway/src/connection-handler.ts:186-274 | overlapping runs: if no chunk was misread during the look-up, all is handed to the topics under the IMEI the stream starts with and the vehicle its only look-up found |
| `Labels.CrossedLookUpsMislabel` | apps/telemetry-tcp-gateway/src/connection-handler.ts:186-193 | the run in which two look-ups cross: records go out under the IMEI of one and the vehicle of the other, a pair no look-up found unless the IMEIs or the vehicles are the same |
| `Uplink.PacketIsDelivered` | apps/telemetry-tcp-gateway/src/connection-handler.ts:267-304 | the effects the handler logs for a packet are possible steps of the delivery, with the acknowledgement exactly if all its records were published |
| `Uplink.SessionIsDelivered` | apps/telemetry-tcp-gateway/src/connection-handler.ts:208-305 | a whole session of a waiting device is a run of the delivery, in which it lets go of exactly the records acknowledged |
| `Persist.Database.PersistRecord` | apps/telemetry-processor/src/persist.ts:34-114 | look-up, io_data loop, conflict handling and first-point answer; throws exactly on an instant no Date holds |
| `Persist.Database.Insert` | apps/telemetry-processor/src/persist.ts:70-95 | insert unless a row with the key exists |
| `Persist.Database.CountUpToTwo` | apps/telemetry-processor/src/persist.ts:101-111 | how many rows of a vehicle a LIMIT 2 returns |
| `Persist.RedeliveryIsIdempotent` | apps/telemetry-processor/src/persist.ts:22-33 | handling a message again changes nothing, even if registrations changed |
| `Persist.AfterKeepsRows` | apps/telemetry-processor/src/persist.ts:70-95 | no message makes a second row for a key, nor changes one |
| `Persist.HandlingStores` | apps/telemetry-processor/src/persist.ts:34-99 | a message adds a row if and only if its vehicle is known, its instant is at most 8.64e15 and its key is new; the row holds the message column by column, the io_data with the last value of each id |
| `Delivery.DroppedWasPublished` | apps/telemetry-tcp-gateway/src/connection-handler.ts:267-304 | in every run of devices that wait for each acknowledgement, a record leaves its device only after it was published, in the order sampled |
| `Delivery.StoredExactlyOnce` | apps/telemetry-processor/src/persist.ts:34-99 | in every run there is one row for each key handled with a vehicle, and for no other, and it is the first one's |
| `Delivery.NothingIsLost` | apps/telemetry-processor/src/main.ts:79-163 | each record is on its device, in the topic, dead-lettered or stored, unless it was handled without a vehicle |
| `Delivery.TableOfHandled` | apps/telemetry-processor/src/persist.ts:34-99 | the same for any sequence of deliveries, in any order and number |
| `Delivery.RowsHoldTheirMessages` | apps/telemetry-processor/src/persist.ts:34-99 | in every run each row holds, column by column, the first message of its key handled with a vehicle |
| `Delivery.DeliverInWords` | apps/telemetry-processor/src/main.ts:79-163 | a delivery leaves the topic if and only if the database did its part, the acknowledgement arrived and the consumer did not throw |
| `Delivery.OutsideInWords` | apps/telemetry-processor/src/main.ts:79-163 | a message published again, or given up to the dead letters, and vehicles registered and removed |
| `Delivery.LateInstantsNeverStored` | apps/telemetry-processor/src/persist.ts:67-80 | no row is ever made of a record after the last Date |
| `Delivery.WhereLateInstantsAre` | apps/telemetry-processor/src/main.ts:79-163 | its message is in the topic or among the dead letters, unless it carried no vehicle and was discarded |
| `Delivery.LateInstantIsAcknowledged` | apps/telemetry-tcp-gateway/src/connection-handler.ts:267-304 | a run in which the device has let go of such a record, and only the topic has it |
| `Delivery.OneIsStored` | apps/telemetry-processor/src/main.ts:79-163 | any other record of a registered vehicle can go all the way: let go by its device, out of the topic, and one row |
| `Lifecycle.EveryRun` | apps/telemetry-tcp-gateway/src/drain.ts:52-136 | guard counter = registered sockets, within the cap; draining sockets are busy or ended; closed + remaining = count at start; the drain reports that all closed exactly when they did within the budget |
| `Lifecycle.EndsWhenQuiescent` | apps/telemetry-tcp-gateway/src/drain.ts:58-93 | end() is called exactly on the sockets without a running operation: all when the drain begins, then each whose last operation ends |
| `Lifecycle.ClampsNeverNeeded` | apps/telemetry-tcp-gateway/src/rate-limiter.ts:37-41 | neither counter's floor at zero is ever needed |
| `Lifecycle.DrainingOnlyShrinks` | apps/telemetry-tcp-gateway/src/main.ts:102-122 | no connection is taken in while draining |
| `Lifecycle.TakenIffRoom` | apps/telemetry-tcp-gateway/src/main.ts:102-122 | in every run a new socket is registered if and only if the gateway is serving and fewer than the cap are |
| `Lifecycle.OperationsAreCounted` | apps/telemetry-tcp-gateway/src/drain.ts:79-93 | in every run the count of a registered socket is the operations begun on it less those ended |
| `Lifecycle.BudgetReport` | apps/telemetry-tcp-gateway/src/drain.ts:99-130 | the expired budget reports how many of the sockets there at the start closed and how many remain |
| `Lifecycle.PhasesInOrder` | apps/telemetry-tcp-gateway/src/drain.ts:149-201 | the shutdown goes through signal, drain, flush and pool in this order, and exits with 0 after the pool or with 1 by the hard timer |
| `GatewayObjects.ConnectionGuard.TryAcquire` | apps/telemetry-tcp-gateway/src/rate-limiter.ts:30-36 | a slot is taken if and only if the cap is not reached |
| `GatewayObjects.ConnectionGuard.Release` | apps/telemetry-tcp-gateway/src/rate-limiter.ts:37-41 | a slot is given back |
| `GatewayObjects.DrainController.EndOp` | apps/telemetry-tcp-gateway/src/drain.ts:86-93 | the operation count goes down, and a quiescent draining socket is ended |
| `GatewayObjects.DrainController.OnClose` | apps/telemetry-tcp-gateway/src/drain.ts:69-76 | a closed socket is counted, and the last one settles the drain |
| `GatewayObjects.DrainController.Drain` | apps/telemetry-tcp-gateway/src/drain.ts:99-130 | every quiescent socket is ended exactly once, and an empty drain settles at once |
| `GatewayObjects.Process.AcceptConnection` | apps/telemetry-tcp-gateway/src/main.ts:102-125 | guard, drain and registration together are one step and keep every invariant |
| `GatewayObjects.Process.OnBeginOp` | apps/telemetry-tcp-gateway/src/drain.ts:79-84 | a started operation is one step and keeps every invariant |
| `GatewayObjects.Process.OnEndOp` | apps/telemetry-tcp-gateway/src/drain.ts:86-93 | an ended operation is one step and keeps every invariant |
| `GatewayObjects.Process.OnSocketClosed` | apps/telemetry-tcp-gateway/src/main.ts:122-123 | both close listeners are one step and keep every invariant |
| `GatewayObjects.Process.OnSignal` | apps/telemetry-tcp-gateway/src/drain.ts:165-201 | the first signal starts the drain, later ones do nothing |
| `GatewayObjects.Process.OnBudgetExpires` | apps/telemetry-tcp-gateway/src/drain.ts:120-123 | the expired budget settles the drain once, with what remains, and keeps every invariant |
| `RateLimiter.SlidingWindowLimiter.TryConsume` | apps/telemetry-tcp-gateway/src/rate-limiter.ts:64-76 | prune, refuse or record: answer and timestamps kept |
| `RateLimiter.ForgettingIsSafe` | apps/telemetry-tcp-gateway/src/rate-limiter.ts:54-76 | answers equal those of a limiter that keeps everything, with at most maxEvents timestamps kept |
| `RateLimiter.AnswersAreExact` | apps/telemetry-tcp-gateway/src/rate-limiter.ts:54-76 | in every run a call is accepted if and only if fewer than maxEvents calls before it were accepted with a timestamp later than its clock less the window |
| `RateLimiter.WindowsAreBounded` | apps/telemetry-tcp-gateway/src/rate-limiter.ts:48-76 | maxEvents + 1 accepted events are always at least a window apart |
| `RateLimiter.ClosedWindowIff` | apps/telemetry-tcp-gateway/src/rate-limiter.ts:54-76 | for every maximum, window and length: closed windows of that length keep the maximum on every clock if and only if they are shorter than windowMs |
| `RateLimiter.ClosedWindowsAreBounded` | apps/telemetry-tcp-gateway/src/rate-limiter.ts:54-76 | a closed window of length len never holds more than maxEvents * (len / windowMs + 1) accepted events, which is twice the maximum at windowMs |
| `RateLimiter.ClosedWindowsAreFilled` | apps/telemetry-tcp-gateway/src/rate-limiter.ts:66-73 | and that many are reached, for every length |
| `MandatoCobro.ReducirPagoViaje` | packages/factoring-engine/src/mandato-cobro.ts:195-208 | the replay loop, and the first event it throws at |
| `MandatoCobro.PrimerFallo` | packages/factoring-engine/src/mandato-cobro.ts:195-208 | a replay that throws does so at the first event that is not valid with its own amount and date, and says which and why |
| `MandatoCobro.MontosExactos` | packages/factoring-engine/src/mandato-cobro.ts:92-156 | every charge, release and advance on an admitted log is of exactly the amount its context expected, a positive integer |
| `MandatoCobro.ElMontoDecide` | packages/factoring-engine/src/mandato-cobro.ts:92-156 | where state and date allow money to move, the expected amount is accepted and any other refused as monto_invalido |
| `MandatoCobro.CadaRechazoTieneSuCausa` | packages/factoring-engine/src/mandato-cobro.ts:115-156 | each of the nine refusals if and only if its cause |
| `MandatoCobro.LoAdmitidoSeReproduce` | packages/factoring-engine/src/mandato-cobro.ts:115-208 | any log admitted event by event in its real contexts replays without throwing, to the same state |
| `MandatoCobro.LoReproducibleEsAdmisible` | packages/factoring-engine/src/mandato-cobro.ts:189-208 | and every log that replays could have been admitted |
| `MandatoCobro.LineasIndependientes` | packages/factoring-engine/src/mandato-cobro.ts:1-15 | a log replays if and only if its charge line and its release line do, and each line is its own replay |
| `MandatoCobro.NadaDosVeces` | packages/factoring-engine/src/mandato-cobro.ts:115-156 | no log holds two receptions, charges or moras, nor two releases or advances |
| `MandatoCobro.ReproducibleEsContado` | packages/factoring-engine/src/mandato-cobro.ts:115-185 | the state says exactly how many events of each kind there were |
| `MandatoCobro.LasLineasReflejanSuUltimoEvento` | packages/factoring-engine/src/mandato-cobro.ts:158-185 | each line shows the state, date and amount of its own last event, and the reception is the first event of both |
| `MandatoCobro.MoraSiYSoloSiValida` | packages/factoring-engine/src/mandato-cobro.ts:239-254 | the daily job asks for a mora exactly when it would be accepted, if and only if no charge is pending or the term is not negative |
| `MandatoCobro.MoraUnaSolaVez` | packages/factoring-engine/src/mandato-cobro.ts:239-254 | after a mora the job never asks for another |
| `MandatoCobro.VencimientosExactos` | packages/factoring-engine/src/mandato-cobro.ts:225-254 | the two answers of the daily job in milliseconds: the mora from the end of the term on, the release after it |
| `FloatTerceros.CalcularFloat` | packages/factoring-engine/src/mandato-cobro.ts:257-265 | the loop adds what is released and not yet charged |
| `FloatTerceros.FloatBajoElTope` | packages/factoring-engine/src/mandato-cobro.ts:267-286 | over any attempts on any number of trips the float stays between zero and the cap |
| `FloatTerceros.RegistrarBajoElTope` | apps/api/src/services/mandato-cobro/eventos-pago.ts:342-378 | one attempt, recorded or refused, keeps the float under the cap |
| `FloatTerceros.EstadosDeLosLogs` | apps/api/src/services/mandato-cobro/eventos-pago.ts:342-378 | the states the cap is checked on are the replays of the trips' logs |
| `FloatTerceros.DisponibleEsElMayor` | packages/factoring-engine/src/mandato-cobro.ts:279-286 | a refusal reports the largest amount that would have fitted |
| `FloatTerceros.CabeExactamente` | packages/factoring-engine/src/mandato-cobro.ts:267-286 | a release fits if and only if the charge is paid or it is at most what is left under the cap |
| `FloatTerceros.RegistrarExactamente` | apps/api/src/services/mandato-cobro/eventos-pago.ts:342-378 | an attempt is recorded if and only if it is valid on its trip and, for a release by the operator, the charge is paid or the float stays under the cap |
| `FloatTerceros.ExpuestoDelLog` | packages/factoring-engine/src/mandato-cobro.ts:256-265 | a trip is in the float with the amount of its release exactly while its log has one and no charge |
| `FloatTerceros.CobrarLiberaFloat` | packages/factoring-engine/src/mandato-cobro.ts:256-265 | a charge takes exactly its trip's amount out of the float |
| `Documents.AnchorIsWrittenOnce` | apps/document-service/src/document-store.ts:69-102 | once a row has an issue date no worker, redelivery, failure or clean-up moves the date or the term |
| `Documents.StepRetained` | apps/api/src/routes/transport-documents.ts:433-490 | an anchored row keeps the term of its issue date through every step but a stale correction |
| `Documents.TermFollowsTheIssueDate` | apps/document-service/src/document-store.ts:14-30 | over whole runs without stale corrections |
| `Documents.StaleCorrectionBreaksTheTerm` | apps/api/src/routes/transport-documents.ts:433-490 | the race that breaks it: read, anchoring by the worker, write |
| `Documents.StepExclusive` | apps/document-service/src/document-store.ts:46-58 | a step keeps the claim with one holder if and only if it does not give the row away |
| `Documents.ClaimIsExclusive` | apps/document-service/src/document-store.ts:9-13 | over whole runs in which the row is not given away |
| `Documents.GivenAwayIsSharedNext` | apps/api/src/services/reconciliar-documentos-pendientes.ts:71-79 | a row given away while held has two holders at the next delivery |
| `Documents.StepStuck` | apps/document-service/src/process-document-uploaded.ts:94-133 | a step leaves a row claimed by nobody if and only if it is a lost claim answer, an unwritten recovery or a dead worker |
| `Documents.FreeForTheNextDelivery` | apps/document-service/src/process-document-uploaded.ts:79-133 | over whole runs in which nobody abandons the row: with no worker on it the next delivery takes the claim, unless the document is decoded or entered by hand |
| `Documents.RecoveryIsReclaimed` | apps/document-service/src/process-document-uploaded.ts:114-133 | after a recovery that took effect the message is redelivered and takes the claim |
| `Documents.RedeliveryDoesNotRecover` | apps/document-service/src/process-document-uploaded.ts:85-92 | a stuck row stays stuck however often its message comes back |
| `Documents.CleanUpRecovers` | apps/api/src/services/reconciliar-documentos-pendientes.ts:71-79 | the clean-up frees a stuck row, and the next delivery takes the claim |
| `Documents.CorrectionSurvivesIff` | apps/document-service/src/document-store.ts:81-119 | a correction by hand survives every continuation if and only if no worker holds the row when it is written |
| `Documents.StepKeepsTheCorrection` | apps/document-service/src/document-store.ts:81-119 | only the write of a worker that still holds a claim undoes a correction |
| `Documents.CorrectionLands` | apps/api/src/routes/transport-documents.ts:433-490 | a correction that nothing comes between: entered by hand, with the date given and its term, or the date it had and a term if it had neither |
| `DocumentWorker.DocumentStore.ClaimForProcessing` | apps/document-service/src/document-store.ts:46-58 | the conditional claim |
| `DocumentWorker.DocumentStore.PersistDecoded` | apps/document-service/src/document-store.ts:69-111 | the write-once anchor |
| `DocumentWorker.DocumentStore.MarkFailed` | apps/document-service/src/document-store.ts:113-124 | the failure mark |
| `DocumentWorker.ProcessDocumentUploaded` | apps/document-service/src/process-document-uploaded.ts:79-134 | claim, work and recovery in order, for every way the calls can go |
| `DocumentWorker.DeliveryInWords` | apps/document-service/src/process-document-uploaded.ts:79-134 | row and outcome for each way the calls of a delivery can go |
| `DocumentWorker.HandleDocumentUploaded` | apps/document-service/src/handle-document-uploaded.ts:81-109 | acknowledged unless processing threw |
| `DocumentWorker.DeliveryIsARun` | apps/document-service/src/process-document-uploaded.ts:79-134 | an uninterrupted delivery is one of the interleavings, with the same row and decision |
| `Retention.RetentionIsMonotone` | packages/transport-documents/src/retention/calcular-retention-until.ts:20-35 | the term is a calendar day, and a later issue never ends sooner |
| `Retention.RetentionDay` | packages/transport-documents/src/retention/calcular-retention-until.ts:26-35 | only a 29 February ends a day early |
| `Retention.SixYears` | packages/transport-documents/src/retention/calcular-retention-until.ts:20-35 | six years from the issue, or from the upload when it is not known; a 29 February ends on the 28th |
| `Wire.WireRoundTrip` | apps/telemetry-tcp-gateway/src/pubsub-publisher.ts:168-188 | a valid packet survives serialisation and reading back if and only if it has no variable-length entry |
| `Wire.DecimalRoundTrip` | apps/telemetry-processor/src/main.ts:337-366 | printing a 64-bit value in decimal and reading it back is exact |
| `Wire.WireTrip` | apps/telemetry-processor/src/main.ts:337-366 | no valid packet makes the reader throw, and only its values of variable length come out changed |
| `Wire.SerializedForm` | apps/telemetry-tcp-gateway/src/pubsub-publisher.ts:168-188 | the JSON form, field by field: numbers as they are, 64-bit values in decimal and bytes in base64 |
| `WireTrace.TraceSurvives` | packages/codec8-parser/src/crash-trace.ts:144-246 | the processor extracts the trace the gateway would have if and only if no record of the crash packet is harmed: its variable-length entries are on the axes, and read as what the axes had or complete no sample |
| `WireTrace.SameTraceWithoutNX` | packages/codec8-parser/src/crash-trace.ts:144-211 | without variable-length entries the trace is always the same |
| `CrashTrace.ExtractCrashTrace` | packages/codec8-parser/src/crash-trace.ts:144-211 | the trace, null exactly when no record is a crash event |
| `CrashTrace.SortedIsStableSort` | packages/codec8-parser/src/crash-trace.ts:157-166 | the records in time order, the same ones, ties in their own order |
| `CrashTrace.TraceInOrder` | packages/codec8-parser/src/crash-trace.ts:168-197 | the three lists are in time order |
| `CrashTrace.TraceIsComplete` | packages/codec8-parser/src/crash-trace.ts:172-197 | the samples are exactly those the records give |
| `CrashTrace.TraceInNumbers` | packages/codec8-parser/src/crash-trace.ts:168-246 | the three lists from the records of the packet: samples of the last numbers on axes 17, 18 and 19 in two's complement, fixes with a satellite, and the entries on no axis |
| `CrashTrace.WhatATraceSays` | packages/codec8-parser/src/crash-trace.ts:144-211 | a trace exactly for a packet with a crash record; the instant of the first, the greatest distance of two records, the largest sum of squares, and lists as long as what the records give |
| `CrashTrace.SignedInt16` | packages/codec8-parser/src/crash-trace.ts:249-251 | the two's complement of 16 bits |
| `CrashTrace.PeakIsTheMaximum` | packages/codec8-parser/src/crash-trace.ts:253-263 | the peak bounds every sample made of numbers and is reached |
| `CrashTrace.DurationIsTheSpan` | packages/codec8-parser/src/crash-trace.ts:265-277 | the duration is the greatest distance between two records |
| `CrashTrace.TryExtractAccelSample` | packages/codec8-parser/src/crash-trace.ts:223-246 | the last numeric value of each axis, and a sample when all three are there |
| `Canary.Percentil95IsLeast` | scripts/deploy/canary_verify_decision.py:61-67 | the percentile is the least sample with at least 95 % at or below it |
| `Canary.CorrerPlan` | scripts/deploy/canary_synthetic_probe.py:360-405 | the counters of a probe, and its stop after a first answer that is not the application's |
| `Canary.CountersInNumbers` | scripts/deploy/canary_synthetic_probe.py:360-405 | the counters as numbers of answers: reached, at least 500, 400 to 499, and without a status, among the requests made |
| `Canary.EvaluarSlos` | scripts/deploy/canary_verify_decision.py:151-186 | promotes exactly under 1 % errors and 500 ms |
| `Canary.DecidirGate` | scripts/deploy/canary_verify_decision.py:189-234 | the branches of the gate amount to one condition, in both directions |
| `Canary.OnlyHealthyProbesPass` | cloudbuild.production.yaml:528-556 | a result the deployment wrote, its marks included, passes only if it reached the application with no 5xx and no transport error, over the floor |
| `Canary.PromotesExactlyHealthyAnswers` | scripts/deploy/canary_verify_decision.py:97-234 | from the answers themselves: the gate promotes a probe alone if and only if it had an address, its first answer is the application's, each request got a status below 500, and Monitoring or the answers are enough and fast enough |
| `Canary.PromotesExactlyHealthyJobs` | scripts/deploy/canary_synthetic_probe.py:522-556 | from the summary of a Job that reached the application: if and only if it has no 5xx and no transport error and Monitoring or its sample is enough and fast enough |
| `Canary.PromotesOnlyHealthyJobs` | scripts/deploy/canary_synthetic_probe.py:522-556 | with a Job that did not reach it, only if the probe was healthy itself and the Job saw no failure |
| `Canary.MarksDoNotHeal` | cloudbuild.production.yaml:528-556 | a probe marked afterwards passes only if its answers were healthy |
| `Canary.MarkedUnreachedIff` | scripts/deploy/canary_verify_decision.py:97-129 | for any mark on the Job of an unreached probe, exactly when the gate promotes |
| `Canary.MarkedJobPassesUnreached` | scripts/deploy/canary_synthetic_probe.py:559-563 | an unreached probe can pass if and only if its Job is marked as fine or as not needed |
| `EcoRouting.EvaluarAlternativas` | packages/eco-routing/src/evaluar-alternativas.ts:72-128 | recommends exactly when a route qualifies, and then the first of the best |
| `EcoRouting.MotivoEnNumeros` | packages/eco-routing/src/evaluar-alternativas.ts:85-103 | when a route qualifies, and on what: in products of the margins, with the division by zero JavaScript makes |
| `EcoRouting.Kgco2eEnNumeros` | packages/eco-routing/src/evaluar-alternativas.ts:60-70 | what a route emits: its litres, or those of its distance per 100 km, times the factor; unknown otherwise |
| `EcoRouting.RecommendedGoesFirst` | packages/eco-routing/src/evaluar-alternativas.ts:104-114 | the route recommended goes before every other that qualifies: emissions before time, then less of it, then the one offered first |
| `EcoRouting.EmissionsFirst` | packages/eco-routing/src/evaluar-alternativas.ts:104-114 | whenever one qualifies on emissions, so does the one recommended, with the least of them |
| `EcoRouting.NeverEmitsMore` | packages/eco-routing/src/evaluar-alternativas.ts:88-91 | never more emissions than the current route, when both are known |
| `EcoRouting.GuardrailIff` | packages/eco-routing/src/evaluar-alternativas.ts:78-100 | the arrival guardrail holds for every route that qualifies, whatever is offered, if and only if the two margins do not add up to less than zero or no route can be on time |
| `EcoRouting.GuardrailHolds` | packages/eco-routing/src/evaluar-alternativas.ts:78-100 | so a route recommended arrives within the guardrail |
| `EcoRouting.LateRouteQualifies` | packages/eco-routing/src/evaluar-alternativas.ts:95-100 | for every other input, a route of positive duration that qualifies on time past the guardrail |
| `EcoRouting.TimeIsSaved` | packages/eco-routing/src/evaluar-alternativas.ts:95-100 | a route on time is faster than the current one unless the margin is negative |
| `TextWrap.CortarPalabra` | packages/certificate-generator/src/generar-pdf-base.ts:654-672 | a word that fits stays whole; another is cut only where the next character would not have fitted, losing nothing |
| `TextWrap.Partir` | packages/certificate-generator/src/generar-pdf-base.ts:629-652 | every line fits or is one character; lines break only where the next piece would not fit; the lines hold exactly the pieces of the words, so no character but spaces is lost, added or moved |
| `TextWrap.WordsKeep` | packages/certificate-generator/src/generar-pdf-base.ts:634-637 | the words hold every character that is not a space, in order |
| `TextWrap.WordsNotEmpty` | packages/certificate-generator/src/generar-pdf-base.ts:634-637 | no word is empty unless the text has none |
| `TextWrap.WordsAreTheRuns` | packages/certificate-generator/src/generar-pdf-base.ts:634-637 | the words of a text are its maximal runs of characters that are no space, in order |
| `Tarifa.ResolverTarifaPct` | packages/factoring-engine/src/tarifa.ts:77-116 | the table scan gives the percentage of the term |
| `Tarifa.CalcularTarifaProntoPago` | packages/factoring-engine/src/tarifa.ts:39-75 | fee plus advance is the net amount; each bad input has its own error, in order |
| `Tarifa.TarifaCreciente` | packages/factoring-engine/src/tarifa.ts:28-33 | the percentage stays between 1.5 and 8 and never falls with the term |
| `Tarifa.TablaExacta` | packages/factoring-engine/src/tarifa.ts:15-20 | the points of the table are met exactly and the pieces join there |
| `Tarifa.InterpolacionLineal` | packages/factoring-engine/src/tarifa.ts:100-113 | between two points the percentage is the straight line's, to within half a hundredth |
| `Tarifa.TarifaEnNumeros` | packages/factoring-engine/src/tarifa.ts:15-20 | 1.5 % up to 30 days, the straight lines to 2.2 at 45, 3 at 60 and 4.5 at 90 rounded to a hundredth, 8 after 180 |
| `Tarifa.Escalones` | packages/factoring-engine/src/tarifa.ts:90-98 | from day 91 to 180 half a point more for each 15 days begun |
| `Tarifa.TarifaEsElRedondeo` | packages/factoring-engine/src/tarifa.ts:60-65 | the fee is the percentage of the amount to the nearest peso, halves up |
| `Tarifa.UnMillon` | packages/factoring-engine/src/tarifa.ts:39-75 | a million at 30 days costs 15 000, and at 90 days 45 000 |
| `Tarifa.TechoDesde` | packages/factoring-engine/src/tarifa.ts:90-98 | the ceiling is reached from day 181 on and not before |
| `Tarifa.AdelantoEnRango` | packages/factoring-engine/src/tarifa.ts:34-36 | fee and advance lie between zero and the net amount |
| `Tarifa.AdelantoCrecienteEnMonto` | packages/factoring-engine/src/tarifa.ts:63-65 | a larger amount never has a smaller advance |
| `Tarifa.AdelantoDecrecienteEnPlazo` | packages/factoring-engine/src/tarifa.ts:63-65 | a longer term never has a larger advance |

## Left out

- Sockets, TLS, Pub/Sub, Postgres, GCS, BigQuery and KMS clients: they are events, tables and calls that may fail.
- `resolveImei` and the TED decoder: their answers are parameters; the rate limit inside `resolveImei` is modelled on its own in `RateLimiter`.
- Coordinates stay raw 32-bit integers: the division by 1e7 and its rounding are floating point.
- Money, percentages and emissions are exact integers or reals; rounding of doubles is not modelled, and neither are NaN amounts and dates.
- CrashTrace.ExtractCrashTrace: the peak is kept as the square of its value in mG, because the square root is floating point, and time offsets are exact where `Number(...)` of a difference above 2^53 rounds.
- CrashTrace.SortedIsStableSort: `Array.prototype.sort` is modelled by the insertion sort proved stable here, not by the engine's algorithm.
- Persist.Database.PersistRecord: a timestamp is stored as its number; the text form of years after 9999 that Postgres would parse is not modelled.
- Persist.Database.Insert: the unique index is a scan of the rows, and concurrent inserts are serialised by it as the index does.
- Delivery.NothingIsLost: dead-lettering may happen to any outstanding message at any time, where the topic does it after five attempts; the result therefore covers more runs than the source has.
- The publication of panic events and the green-driving extraction in the processor: side effects that change neither the table nor the acknowledgement.
- The schema checks of the processor and of the document worker on messages nobody in the repository sends (malformed JSON, a path outside its prefix): they acknowledge and do nothing.
- Wire.WireRoundTrip: how JavaScript reads a number in a base64 string, and how base64 is written, are parameters; the result holds for every choice of them.
- WireTrace.TraceSurvives: a number read in a base64 string is an integer or none; one too large for a double, which JavaScript reads as infinite or rounds, is not told apart.
- Delivery.DroppedWasPublished: a device has one packet in flight at a time; what an acknowledgement means without that is in `StopAndWait`, where devices and table are not modelled.
- Labels.RecordsKeepTheirDevice: the pending device a look-up reports goes to the log only and is not part of the interleaved state.
- Uplink.SessionIsDelivered: the runs of a waiting device do not overlap, so the session is that of `Connection`; the message to the crash topic has no step in `Delivery`.
- TextWrap.Partir: a character is a Unicode scalar value, and the width of a string is an arbitrary function.
- Canary: the texts the gate prints, the parsing of Job logs and the choice of the stable revision for the rollback.
- `buildShutdown` in `Lifecycle` is the order of its phases; the failure of `closeListeners` is not modelled.
- X.509, PKCS7 and PDF generation, the web app, the WhatsApp bot, authentication and logging: foreign code or plumbing.
- Driver scores, coaching, underwriting, congestion detection and matching: they would add easy members.
