# Verification of rdpd's per-connection protocols

rdpd's worker multiplexes many stateful protocols over one client connection. This
project models the ones that carry state or undo each other, and proves what they keep
over whole runs and what they give back on a round trip. `dafny verify dfyconfig.toml`
checks everything.

Every module has the same plan: specification functions on values; methods and classes in
the source's own form (arrays, cursors, tables updated in place), proved equal to those
functions; and lemmas about the functions for all inputs, runs or schedules.

| file | what it models |
|---|---|
| `Bytes.dfy` | octets, little-endian fields, views, copying |
| `FastPath.dfy` | fast-path updates: building them and cutting and reading the stream |
| `VirtualChannel.dfy` | static channels: the chunker and the accumulator |
| `DynamicChannel.dfy`, `DynamicWire.dfy` | dynamic channels: reassembly and dispatch; DATA_FIRST and DATA on the wire |
| `GraphicsFraming.dfy` | graphics PDUs through bulk segments, DATA header and chunks, and back |
| `GraphicsFlow.dfy` | the frame window and byte budget of the graphics channel |
| `DeviceTable.dfy`, `DeviceResponses.dfy` | device announcements and the worker's answers |
| `DeviceRedirection.dfy` | the state machine of drive requests, print jobs and completions |
| `DeviceInvariants.dfy`, `DeviceAccounting.dfy`, `DeviceRuns.dfy`, `DeviceTheorems.dfy` | its invariants and theorems over runs |
| `DevicePrinting.dfy` | what becomes of a print job, told by the client's messages |
| `DeviceIrps.dfy`, `DeviceDrive.dfy` | the requests on the wire, the client's files, and the answers |
| `DeviceRelay.dfy` | the same machine in place, on the two tables |
| `CharCode.dfy`, `Utf.dfy` | texts in a character code; UTF-8 and UTF-16LE |
| `FileList.dfy`, `HtmlEnvelope.dfy` | the clipboard's file list and CF_HTML envelope |
| `Ber.dfy`, `Cssp.dfy` | BER and the TSRequest message of network-level authentication |
| `PointerCache.dfy` | the cursor cache, server and client side |
| `PduFraming.dfy` | TPKT and fast-path packets; cutting the client's byte stream into them |
| `Tiler.dfy` | the bitmap path: tiles and fragments |
| `Camera.dfy` | camera negotiation and media type selection |

## Findings

Where a property does not hold of the code as written, the code is kept, a lemma gives an
input, and the exact condition is proved.

- A chunk too short for its header is rejected without resetting the accumulator, although
  the header comment says every rejection resets it (`ErrorLeavesAccumulatorEmpty`,
  `ShortPayloadKeepsFragment`).
- Completion ids are distinct only until the 32-bit counter wraps onto an id in flight; a
  run of 2^32 + 1 requests does so, and the later request's id then overwrites the earlier
  one's (`ReserveKeepsDistinctIff`, `StampIsOwnIff`, `WrappedCounterCollides`).
- A print job on a device that is not announced as a printer loses its completion and is
  stranded (`OwnershipSurvivesIffPrinter`, `JobOnUnknownDeviceIsStranded`).
- File names and search patterns are widened octet by octet and not converted, although the
  backend protocol (src/backend/proto.h:186-195) promises UTF-8 paths: the client gets the
  name meant exactly if it is ASCII (`NameIsKeptIff`, `AccentIsLost`).
- On an AVC444 stream, a frame whose main stream does not fit its 30-bit length field is not
  built but uses a frame id that is never acknowledged, so a fully acknowledged stream can
  be blocked (`FullyAckedIsBlockedIff`, `OversizedMainStreamBlocks`). AVC420 and progressive
  frames are always built and such streams are never blocked (`BuildSucceedsIff`,
  `FullyAckedIsNeverBlocked`).
- A cursor whose hotspot lies outside it is cached under the hash of the cursor as it came,
  but the client gets it with the hotspot moved inside (`ClampKeepsIff`, `SlotHashIff`,
  `HotspotOutsideIsMoved`).
- A camera type whose frame size wraps in 64 bits is accepted (`UsableFitsIff`,
  `HugeTypeIsUsable`).
- The tiling loops have 16-bit counters, and tile positions and edges are 16-bit sums. The
  loops end with the frame drawn exactly if each side is at most 65472 and the frame ends by
  column and row 65536, or it is empty and the loops end (`FrameIsDrawnIff`). On a wider
  frame they send the first band for ever and never its 65th row
  (`WideFrameNeverLeavesFirstBand`, `WideFrameIsNotDrawn`); past the edge, part of the
  visible area is not drawn or a wrapped tile is drawn elsewhere (`EdgeFrameIsNotDrawn`).
- When the client closes, whole PDUs still in the buffer are dropped, so how many are
  handled depends on how the stream was read (`CloseFramesPrefix`, `CloseDependsOnReads`).

## Model

| member | source | states |
|---|---|---|
| `VirtualChannel.ErrorLeavesAccumulatorEmpty` | src/channels/vchan.c:58-113 | after a rejected chunk the accumulator is empty exactly if the payload held a header or it was empty before |
| `VirtualChannel.ShortPayloadKeepsFragment` | src/channels/vchan.c:98-113 | a run from the empty accumulator: the first octet of a PDU, then a rejected payload that leaves it there |
| `VirtualChannel.Reassembler.constructor` | src/channels/vchan.c:38-46 | a new accumulator holds nothing |
| `VirtualChannel.Reassembler.Reset` | src/channels/vchan.c:48-56 | after a reset the accumulator holds nothing |
| `VirtualChannel.Reassembler.Feed` | src/channels/vchan.c:58-96 | feeding a chunk to the buffer in place is the specification's transition, for every chunk and state |
| `VirtualChannel.Reassembler.FeedMessage` | src/channels/vchan.c:98-113 | the same for a whole channel payload, header included |
| `VirtualChannel.SendPdu` | src/daemon/conn.c:499-546 | the loop sends exactly the chunk sequence of the PDU |
| `VirtualChannel.ChunkFields` | src/daemon/conn.c:514-528 | a chunk's total, flags and body read back as written |
| `VirtualChannel.ChunksReassemble` | src/channels/vchan.c:58-113 | from any accumulator state, the chunks of a PDU yield "more" for all but the last and then exactly that PDU |
| `VirtualChannel.ChunkCount` | src/daemon/conn.c:499-546 | a PDU goes out in ceil(n / 16000) chunks of at most 16000 octets after their header |
| `VirtualChannel.AnySplitReassembles` | src/channels/vchan.c:58-113 | however a client splits a PDU into chunks, and whatever their other flags, it arrives whole with the last, from any accumulator state |
| `VirtualChannel.OutcomeIff` | src/channels/vchan.c:58-113 | exactly when a chunk is refused and when it completes a PDU, by its flags and lengths |
| `VirtualChannel.OtherFlagsAreIgnored` | src/channels/vchan.c:58-96 | a chunk with other bits beside FIRST and LAST does what the one without them does |
| `VirtualChannel.CompletePduStays` | src/channels/vchan.c:58-96 | a PDU put together stays in the accumulator until the caller resets it |
| `VirtualChannel.AccHoldsFragments` | src/channels/vchan.c:58-96 | after any history the accumulator holds the fragments since the last FIRST, within its announced size |
| `VirtualChannel.CompletePduIsItsFragments` | src/channels/vchan.c:58-113 | after any history, a completed PDU is the concatenation of the fragments since the last FIRST |
| `DynamicChannel.Reassembler.Append` | src/channels/drdynvc.c:122-142 | the copy clamps to the declared total and hands the PDU over once it is whole |
| `DynamicChannel.Reassembler.FeedFragment` | src/channels/drdynvc.c:107-142 | feeding a fragment in place is the specification's transition; the size invariant is kept |
| `DynamicChannel.SlotTracksOpen` | src/channels/drdynvc.c:107-142 | after any history the slot holds the concatenation of the open PDU's fragments |
| `DynamicChannel.DeliveredPduIsClampedConcatenation` | src/channels/drdynvc.c:107-142 | each delivered PDU is the first `total` octets of its fragments' concatenation |
| `DynamicChannel.RouteIsInjective` | src/channels/drdynvc.c:324-421 | two channel ids never share a reassembler |
| `DynamicChannel.Dispatcher.HandlePdu` | src/channels/drdynvc.c:324-421 | dispatching a PDU in place is the specification's transition |
| `DynamicChannel.ForeignPduIsInvisible` | src/channels/drdynvc.c:324-421 | a PDU for another channel changes neither this channel's slot nor its deliveries |
| `DynamicChannel.ChannelsDoNotInterfere` | src/channels/drdynvc.c:324-421 | in any interleaving, a channel delivers what it delivers when fed its own PDUs alone |
| `DynamicChannel.ChannelDeliversItsOwnPdus` | src/channels/drdynvc.c:107-421 | on a new connection, in any interleaving, an open channel delivers the clamped concatenations of its own fragments |
| `DynamicWire.DataFirstParses` | src/channels/drdynvc.c:324-421 | a DATA_FIRST written out field by field is read as its channel, total and body, for every width of the id and of the length |
| `DynamicWire.DataMoreParses` | src/channels/drdynvc.c:324-421 | so is a DATA, whatever its unused bits |
| `DynamicWire.RouteByName` | src/channels/drdynvc.c:324-421 | exactly the five open channels have a reassembler, each its own, the earlier first |
| `DynamicWire.AnySplitIsDelivered` | src/channels/drdynvc.c:107-421 | from any state, a PDU of up to 4 MiB split into one DATA_FIRST and any DATA on an open channel, interleaved with other channels' PDUs, is delivered whole with the last part and not before |
| `DynamicWire.LoneDataIsDelivered` | src/channels/drdynvc.c:107-142 | with nothing in progress a DATA is a PDU by itself and changes no slot |
| `DynamicWire.BadTotalIsRefused` | src/channels/drdynvc.c:107-121 | a DATA_FIRST of no octets or more than 4 MiB is refused and ends the PDU in progress |
| `GraphicsFraming.CountIsCeiling` | src/daemon/conn.c:2327-2327 | the number of segments is the rounded-up quotient |
| `GraphicsFraming.AppendSegments` | src/daemon/conn.c:2343-2358 | the loop appends exactly the segments of the data |
| `GraphicsFraming.WrapPdu` | src/daemon/conn.c:2304-2365 | the method builds the specified segmented form |
| `GraphicsFraming.WrapOnTheWire` | src/daemon/conn.c:2304-2341 | the descriptor octets, the segment count and the length, in one part up to 65535 octets and in several above |
| `GraphicsFraming.SegmentOnTheWire` | src/daemon/conn.c:2343-2358 | every segment is as long as it may be, and its length counts the header octet |
| `GraphicsFraming.WrapRoundTrip` | src/daemon/conn.c:2304-2365 | while the framed length fits 32 bits the segment count fits 16 and unwrapping gives back the PDU |
| `GraphicsFraming.DataPduParses` | src/daemon/conn.c:2256-2302 | the DATA header is read back as the same channel id and body |
| `GraphicsFraming.SendGraphics` | src/daemon/conn.c:2304-2365 | the three layers composed send the chunks of the framed PDU |
| `GraphicsFraming.GraphicsRoundTrip` | src/daemon/conn.c:2256-2365 | for every PDU and receiver state, undoing the three layers gives back the channel id and the bytes |
| `DeviceTable.AnnouncedTypeNeverChanges` | src/channels/rdpdr.c:325-351 | an announced id keeps its type and the table its bound, whatever is announced later |
| `DeviceTable.AnnouncementReadsBack` | src/channels/rdpdr.c:297-364 | an announcement written out record by record is read as its ids and types |
| `DeviceTable.NewIdGetsItsType` | src/channels/rdpdr.c:325-351 | while the table of 32 has room, a new id gets the type it is first announced with |
| `DeviceTable.FindKind` | src/daemon/conn.c:1526-1537 | the loop finds the first device with the id |
| `DeviceTable.HandleDeviceList` | src/channels/rdpdr.c:297-364 | the walk registers exactly the whole records announced, first id wins |
| `DeviceResponses.CapsLength` | src/channels/rdpdr.c:629-639 | the loop over capability sets computes the specified end |
| `DeviceResponses.PduLength` | src/channels/rdpdr.c:609-644 | the length of the PDU at the head of the buffer is the specified one |
| `DeviceResponses.SendResponses` | src/daemon/conn.c:1964-1981 | the loop sends exactly the cut of the response buffer |
| `DeviceResponses.AnswerDeviceList` | src/channels/rdpdr.c:297-364 | the buffer is the replies of the announced devices that fit, in order |
| `DeviceResponses.Answer` | src/channels/rdpdr.c:646-692 | the handler's buffer is the concatenation of the PDUs specified for the message |
| `DeviceResponses.AnswersOnTheWire` | src/channels/rdpdr.c:134-166 | the client id confirmation, the user-logged-on message and the device reply, octet by octet |
| `DeviceResponses.CapabilitiesOnTheWire` | src/channels/rdpdr.c:82-132 | the five capability sets, octet by octet |
| `DeviceResponses.AnswersByMessage` | src/channels/rdpdr.c:646-692 | which of them answers which message, by its first four octets |
| `DeviceResponses.CapabilitiesDelimit` | src/channels/rdpdr.c:82-132 | the capability PDU's length is found whatever follows it |
| `DeviceResponses.DeviceRepliesDelimit` | src/channels/rdpdr.c:156-166 | there is one reply for each of the first cap/12 devices, each delimiting itself |
| `DeviceResponses.EveryResponseIsRecovered` | src/channels/rdpdr.c:609-692 | for every message and buffer size, cutting the buffer yields exactly the PDUs appended |
| `DeviceResponses.AnswerAndSend` | src/daemon/conn.c:1957-1981 | what goes out is what was answered |
| `DeviceInvariants.ReserveKeepsDistinctIff` | src/channels/rdpdr.c:366-383 | a new entry keeps the ids distinct exactly if no entry in use has the counter's value |
| `DeviceInvariants.StampIsOwnIff` | src/daemon/conn.c:3945-3953 | a request id lands in the entry just taken exactly if no earlier entry in use carries the same completion id |
| `DeviceInvariants.CompletionFindsOwner` | src/channels/rdpdr.c:697-739 | the entry a completion finds is the owner's |
| `DeviceInvariants.ReserveForJobKeepsOwned` | src/daemon/conn.c:1555-1642 | a job's new IRP leaves every live job owning its own entry |
| `DeviceInvariants.ReserveForDriveKeepsOwned` | src/channels/rdpdr.c:366-383 | a drive request's entry is taken from no job |
| `DeviceAccounting.ScriptPrefixWritesSpoolPrefix` | src/daemon/conn.c:1554-1596 | a prefix of a job's script writes a prefix of its spool in slices of at most 8000 |
| `DeviceRuns.AcceptedIsIssued` | src/daemon/conn.c:3945-3953 | while no id was reused, an accepted request's id is noted in its own entry |
| `DeviceRuns.FsRequestKeepsCore` | src/daemon/conn.c:3819-3968 | a drive request keeps ownership, books and logs |
| `DeviceRuns.PrintJobKeepsCore` | src/daemon/conn.c:3969-4008 | so does a print job |
| `DeviceRuns.PrintCompletionKeepsCore` | src/daemon/conn.c:1643-1698 | so does each branch of a print completion |
| `DeviceRuns.CompletionKeepsInv` | src/daemon/conn.c:1982-2021 | so does any completion, known, unknown or duplicate |
| `DeviceRuns.DeviceListKeepsInv` | src/channels/rdpdr.c:297-364 | so does a device announcement |
| `DeviceRuns.StepKeepsInv` | src/daemon/conn.c:1982-2021 | every admissible event keeps the whole invariant |
| `DeviceTheorems.RunKeepsInv` | src/channels/rdpdr.c:366-383 | every state reached with fewer than 2^32 IRPs satisfies the invariant |
| `DeviceTheorems.EveryJobOwnsOneEntry` | src/daemon/conn.c:1541-1698 | in every run ids in flight are distinct and each live job owns exactly one entry, shared with nobody |
| `DeviceTheorems.OwnershipSurvivesIffPrinter` | src/daemon/conn.c:1982-2021 | a job's completion keeps ownership exactly if its device is known as a printer |
| `DeviceTheorems.JobOnUnknownDeviceIsStranded` | src/daemon/conn.c:1982-2021 | a run after which a live job waits on an entry no longer in use |
| `DeviceTheorems.RunWhileFirstWaits` | src/channels/rdpdr.c:366-383 | for every n up to 2^32 some run has issued n IRPs with the first still in flight under id 0 and nothing else in flight |
| `DeviceTheorems.WrappedCounterCollides` | src/channels/rdpdr.c:366-383 | one request more than 2^32 leaves two entries in use under id 0, and the new request's id in the old entry |
| `DeviceTheorems.EveryPrintJobKeepsItsPromise` | src/daemon/conn.c:1554-1698 | for every job of every run: WRITE number i carries octets 8000(i-1) to 8000i of the spool to that offset of the opened file, CLOSE only after all of it is acknowledged, every IRP but the last of an unfinished job acknowledged, printed after exactly 2 + ceil(n/8000) successes, and never ended otherwise but by an error status |
| `DeviceTheorems.CompletionStep` | src/channels/rdpdr.c:697-739 | a completion written out field by field is handled with its own id, status and data, for every device, id, status and data |
| `DevicePrinting.JobFateIsWhatTheClientSent` | src/daemon/conn.c:1643-1698 | for every job of every run: its successes are the completions the client sent with status 0 for its request in flight, its file is the one the first of them names, the first other status ends it as a failure with that status, and nothing else ends it but the last success |
| `DeviceTheorems.PrintJobIsTakenIff` | src/daemon/conn.c:1600-1640 | a job is taken exactly if its spool has at most 4 MiB and a job and an entry are free; the printer is then opened for writing, else nothing changes |
| `DeviceTheorems.RefusalIsAnswered` | src/daemon/conn.c:3819-3968 | a refused request is answered with its own ids and the status for its reason |
| `DeviceIrps.LengthIsWireSize` | src/channels/rdpdr.c:386-607 | every request takes the octets its builder checks for |
| `DeviceIrps.PutIrp` | src/channels/rdpdr.c:386-607 | the builder writes exactly the request, or refuses and leaves the buffer alone |
| `DeviceIrps.Widen` | src/channels/rdpdr.c:398-440 | the loop writes the name with a zero after each octet and two at the end |
| `DeviceIrps.IrpReadsBack` | src/channels/rdpdr.c:386-607 | a client reading any request by the offsets of MS-RDPEFS gets its device, id, kind and every field |
| `DeviceIrps.NameIsKeptIff` | src/channels/rdpdr.c:398-440 | the name on the wire, read as UTF-16, is the name given exactly if it is ASCII |
| `DeviceIrps.AccentIsLost` | src/channels/rdpdr.c:398-440 | a two-octet name of one accented letter that arrives as two other letters |
| `DeviceDrive.RequestIsRelayedAsAsked` | src/daemon/conn.c:3819-3968 | for each of the seven operations the client reads from the octets sent what the session asked for: kind, device, file, offset, length, data, name, class and defaults |
| `DeviceDrive.AnswerReachesSession` | src/daemon/conn.c:1982-2021 | in every run the reply carries the request's ids, the client's status, the data, and for an open its first four octets as the file id |
| `DeviceDrive.FileHoldsWhatWasWritten` | src/daemon/conn.c:3819-3968 | after every run a client that applies the WRITEs sent holds the file the accepted requests describe |
| `DeviceDrive.SlicesMakeTheFile` | src/daemon/conn.c:3909-3912 | consecutive slices leave their concatenation in the file |
| `DeviceDrive.ReadReturnsThePart` | src/daemon/conn.c:3819-3968 | in every run a READ answered by a client that holds x gives the session the part of x it asked for |
| `DeviceDrive.SessionReadsWhatItWrote` | src/daemon/conn.c:3819-3968 | in every run a session that wrote consecutive slices reads back the parts of their concatenation |
| `DeviceTheorems.DriveRequestsAreConserved` | src/daemon/conn.c:3819-3968 | requests made = answered + in flight + swallowed on printers, and none is swallowed on other devices |
| `DeviceTheorems.RefusedOnlyWhenFull` | src/channels/rdpdr.c:398-607 | a request is refused exactly for an unknown operation, an oversized payload or a full table, and then nothing but its error reply changes |
| `DeviceTheorems.EchoedDeviceIdIsIgnored` | src/channels/rdpdr.c:697-735 | two completions that differ only in the echoed device id have the same effect |
| `DeviceRelay.Relay.AllocPending` | src/channels/rdpdr.c:366-383 | the first free entry is taken with the next id, or nothing changes |
| `DeviceRelay.Relay.SetRequestId` | src/daemon/conn.c:3945-3953 | the scan notes the request id in the first entry in use with the completion id, if there is one |
| `DeviceRelay.Relay.HandleFsRequest` | src/daemon/conn.c:3819-3968 | from every table, the code in place is the specification's transition |
| `DeviceRelay.Relay.SendWrite` | src/daemon/conn.c:1554-1576 | the next slice goes out as one WRITE at the job's offset |
| `DeviceRelay.Relay.StartPrintJob` | src/daemon/conn.c:1600-1640 | starting a job in place is the specification's transition |
| `DeviceRelay.Relay.HandlePrintCompletion` | src/daemon/conn.c:1643-1698 | a print completion in place is the specification's transition |
| `DeviceRelay.Relay.HandleCompletion` | src/daemon/conn.c:1982-2021 | routing a completion in place is the specification's transition |
| `DeviceRelay.Relay.HandleClientPdu` | src/channels/rdpdr.c:646-753 | any client PDU in place is the specification's transition |
| `CharCode.FitIsLongestPrefix` | src/common/utf16.c:129-146 | what is written to a short buffer is the longest whole-character prefix that fits |
| `CharCode.AcceptsWellFormed` | src/common/utf16.c:116-187 | a converter accepts exactly the well-formed strings |
| `CharCode.RoundTrip` | src/common/utf16.c:116-187 | converting one way succeeds with a result exactly if converting that result back gives the input |
| `CharCode.Finish` | src/common/utf16.c:116-149 | a conversion that stops has the specified length and buffer contents |
| `CharCode.NeverTruncated` | src/daemon/conn.c:733-741 | a buffer of twice the input takes the whole conversion |
| `Utf.Next8Iff` | src/common/utf16.c:41-81 | the UTF-8 decoder returns a character exactly where the standard's octets for it stand |
| `Utf.Next16Iff` | src/common/utf16.c:159-176 | the UTF-16 reader does the same |
| `Utf.UtfRoundTrip` | src/common/utf16.c:116-187 | UTF-8 to UTF-16LE and back is the identity on exactly the well-formed strings, in both directions |
| `Utf.ReadUtf8` | src/common/utf16.c:41-81 | the accumulating loop decodes as specified and advances by the character's length |
| `Utf.ReadUtf16` | src/common/utf16.c:159-176 | one unit or one surrogate pair is read as specified |
| `Utf.ToUtf16` | src/common/utf16.c:116-149 | full length or an error, and the longest whole-character prefix in the buffer, the rest of it untouched |
| `Utf.ToUtf8` | src/common/utf16.c:151-187 | the same the other way; an odd length is refused before anything is written |
| `Utf.TextForClient` | src/daemon/conn.c:946-956 | pasted text goes out whole, converted and NUL-terminated, or empty if malformed |
| `Utf.TextForSession` | src/daemon/conn.c:731-744 | copied text arrives whole, converted and without trailing NULs, or empty if malformed |
| `FileList.NameReadsBack` | src/channels/cliprdr.c:571-615 | a name reads back up to its last whole character that fits, or its first malformed one |
| `FileList.NameSurvivesIff` | src/channels/cliprdr.c:571-615 | a name reads back unchanged exactly if it is well-formed UTF-8 of at most 259 UTF-16 units |
| `FileList.RecordOnTheWire` | src/channels/cliprdr.c:562-577 | where each field of the 592-octet descriptor stands, zeros between them |
| `FileList.RecordReadsBack` | src/channels/cliprdr.c:562-617 | flags, attributes, size and time of a descriptor read back as written |
| `FileList.StoredCount` | src/channels/cliprdr.c:583-597 | on any input the stored count respects the caller's capacity and the bytes present |
| `FileList.ParseOfBuild` | src/channels/cliprdr.c:551-620 | parsing a built list gives back its descriptors, up to the caller's capacity |
| `FileList.FileListRoundTripIff` | src/channels/cliprdr.c:551-620 | the list reads back unchanged exactly if every name does |
| `FileList.UnitsLength` | src/channels/cliprdr.c:531-540 | the loop finds the first 16-bit NUL |
| `FileList.BuildFileList` | src/channels/cliprdr.c:551-577 | the builder writes exactly the specified list, or refuses it |
| `FileList.ReadName` | src/channels/cliprdr.c:605-615 | the name buffer ends up holding the specified C string |
| `FileList.ParseFileList` | src/channels/cliprdr.c:579-620 | the parser returns exactly the specified descriptors |
| `HtmlEnvelope.WrapSucceedsIff` | src/channels/cliprdr.c:308-351 | wrapping succeeds exactly if the buffer takes fragment and envelope and the offsets have at most ten digits |
| `HtmlEnvelope.RelayBufferSuffices` | src/daemon/conn.c:925-935 | fragment length + 256 is always enough |
| `HtmlEnvelope.StartKeyFound` | src/channels/cliprdr.c:353-402 | the first StartFragment key in a wrapped buffer is the header's, whatever the fragment holds |
| `HtmlEnvelope.EndKeyFound` | src/channels/cliprdr.c:353-402 | so is the first EndFragment key |
| `HtmlEnvelope.UnwrapOfWrap` | src/channels/cliprdr.c:308-421 | unwrapping what was wrapped gives back the fragment, for every byte string |
| `HtmlEnvelope.HtmlOffsetsDelimit` | src/channels/cliprdr.c:308-351 | StartHTML and EndHTML of a wrapped fragment delimit the whole document |
| `HtmlEnvelope.MarkersDelimit` | src/channels/cliprdr.c:392-421 | HTML without offsets unwraps to what stands between its first markers |
| `HtmlEnvelope.PlainIsWhole` | src/channels/cliprdr.c:392-421 | HTML with neither is taken whole |
| `HtmlEnvelope.OffsetIsReadIff` | src/channels/cliprdr.c:370-390 | an offset of any number of digits is read exactly if it is at most 2^40 |
| `HtmlEnvelope.UnwrapStaysInside` | src/channels/cliprdr.c:392-421 | on arbitrary bytes the unwrapped range lies inside the input |
| `HtmlEnvelope.FindSub` | src/channels/cliprdr.c:353-368 | the search loop finds the first occurrence |
| `HtmlEnvelope.ReadOffset` | src/channels/cliprdr.c:370-390 | the digit loop reads the specified number |
| `HtmlEnvelope.UnwrapHtml` | src/channels/cliprdr.c:392-421 | the method returns the specified range |
| `HtmlEnvelope.WrapHtml` | src/channels/cliprdr.c:308-351 | the buffer starts with the specified envelope, or is left alone |
| `Ber.LengthReadsBack` | src/common/ber.c:72-93 | every written length reads back, whatever follows it |
| `Ber.TlvReadsBack` | src/common/ber.c:207-222 | every written element reads back to its value and what follows |
| `Ber.IntegerReadsBack` | src/common/ber.c:103-138 | every 32-bit INTEGER reads back |
| `Ber.LengthIsShortest` | src/common/ber.c:72-93 | a length takes one octet up to 127 and has no leading zero above |
| `Ber.IntegerIsShortest` | src/common/ber.c:103-138 | an INTEGER has a clear sign bit and no octet that could be dropped |
| `Ber.TagAtReads` | src/common/ber.c:207-222 | reading an element at an offset and reading it from the octets left there find the same value and rest, or both refuse |
| `Ber.ReadLengthAt` | src/common/ber.c:185-205 | short and long form are read at the offset as specified |
| `Ber.ReadTagAt` | src/common/ber.c:207-222 | the value's range lies between the header and the end given, or the element is refused |
| `Ber.ReadIntegerAt` | src/common/ber.c:256-273 | an INTEGER of up to four octets, or five with a zero first, is read as specified |
| `Ber.ReadBe` | src/common/ber.c:199-203 | the accumulating loop computes the big-endian value |
| `Ber.Buf.Put` | src/common/buf.c:63-71 | bytes are appended exactly if they fit |
| `Ber.Buf.WriteLength` | src/common/ber.c:72-93 | the length is appended exactly if it fits |
| `Ber.Buf.WriteElement` | src/sec/cssp.c:187-196 | tag, length and value are appended exactly if they fit |
| `Ber.Buf.WriteInteger` | src/common/ber.c:103-138 | the INTEGER is appended exactly if it fits |
| `Cssp.ComponentReadsInside` | src/sec/cssp.c:93-183 | the component at an offset is the one read from the octets left there; its value lies in the input, its view in its value, and the next offset at the value's end (for negoTokens between the view and that end) |
| `Cssp.ParseStaysInside` | src/sec/cssp.c:79-185 | on every accepted input the components follow one another from the outer header to the end, and each view is the one of the last component with its own tag, inside that component's value; without such a component it is empty |
| `Cssp.ViewsShowTheRequest` | src/sec/cssp.c:79-185 | the parser accepts exactly what parsing on the octets left accepts, and its views show the same request |
| `Cssp.ReadPieceAt` | src/sec/cssp.c:93-183 | one component read with the offset readers is the specified one |
| `Cssp.ParseRequest` | src/sec/cssp.c:79-185 | the offset loop returns the views of the last component of each tag, or refuses the input |
| `Cssp.NegoReadsBack` | src/sec/cssp.c:109-141 | the nested negotiation token reads back |
| `Cssp.BuildParses` | src/sec/cssp.c:198-278 | whatever is built parses back to the same version, token, authInfo and pubKeyAuth |
| `Cssp.AnyMessageParses` | src/sec/cssp.c:79-185 | any sequence of components a client may send, in any order and repeated or unknown, parses to the last of each kind |
| `Cssp.BuildParsesToViews` | src/sec/cssp.c:79-278 | and the views the parser returns on it show those octets |
| `Cssp.WrapToken` | src/sec/cssp.c:217-243 | the nested buffers hold the wrapped token exactly if the outermost takes it |
| `Cssp.BuildRequest` | src/sec/cssp.c:198-278 | the builder returns the message exactly if its fixed buffers and the output take it |
| `PointerCache.SmallCursorsAreBuildable` | src/wire/fastpath.c:102-120 | the update of any cursor up to 60x60 can be built |
| `PointerCache.ClampKeepsIff` | src/wire/fastpath.c:117-120 | the packet carries the cursor unchanged exactly if its hotspot lies inside |
| `PointerCache.ClampedIsNearest` | src/wire/fastpath.c:117-120 | the hotspot is moved to the nearest point of the cursor |
| `PointerCache.MaskRowsAreWords` | src/wire/fastpath.c:107-111 | the mask has a bit a pixel and rows of whole 16-bit words |
| `PointerCache.PreparedIsBuildable` | src/daemon/conn.c:3641-3712 | every accepted cursor, scaled where it is too large, can be built; its hotspot is inside exactly if it was or the cursor was scaled |
| `PointerCache.Shrink` | src/daemon/conn.c:3651-3705 | the nested loops compute the specified nearest-neighbour cursor and hotspot |
| `PointerCache.FittedFits` | src/daemon/conn.c:3651-3668 | a scaled cursor is between 1 and the limit on both sides, and small ones are unchanged |
| `PointerCache.UnchangedIff` | src/daemon/conn.c:3651-3705 | a cursor goes out as it came exactly up to 32x32, or 60x60 for a client with large pointers |
| `PointerCache.EnlargedShrinksBack` | src/daemon/conn.c:3651-3705 | a cursor as large as the limit, enlarged any number of times, shrinks back to itself, hotspot included |
| `PointerCache.TurnKeepsSynced` | src/daemon/conn.c:3713-3752 | each update keeps every slot holding, as its packet carried it, a cursor seen with the slot's hash, and the client shows such a cursor for the current hash |
| `PointerCache.RunKeepsSynced` | src/daemon/conn.c:3713-3752 | so does every run |
| `PointerCache.RecalledIff` | src/daemon/conn.c:3731-3751 | in every run a cursor is recalled from the client's cache exactly if its hash is among those of the last cursors sent anew, as many as there are slots |
| `PointerCache.SlotsByNumber` | src/daemon/conn.c:2597-2603 | there are at most 32 slots, and none without colour pointers |
| `PointerCache.ClientShowsCurrentCursor` | src/daemon/conn.c:3641-3752 | after every run of any cursors the client shows one seen with the current hash; if the hash is collision-free on the run, the current cursor as its packet carries it, which is the cursor itself exactly if its hotspot lies inside or it was scaled |
| `PointerCache.HotspotOutsideIsMoved` | src/wire/fastpath.c:117-120 | a one-pixel cursor with an outside hotspot that the client shows moved |
| `PointerCache.SlotHashIff` | src/daemon/conn.c:3740-3747 | a slot's hash is that of what the client holds exactly if the hotspot lies inside, unless the hash confuses the two |
| `PointerCache.Table.constructor` | src/daemon/conn.c:2597-2603 | the negotiated size is bounded, zero without colour pointers |
| `PointerCache.Table.Find` | src/daemon/conn.c:3732-3734 | the scan finds the first valid slot with the hash |
| `PointerCache.Table.Show` | src/daemon/conn.c:3731-3751 | the table code in place is the specification's transition |
| `GraphicsFlow.PutsAddUp` | src/channels/rdpgfx.c:409-599 | what each builder puts adds up to the total it compares with its buffer |
| `GraphicsFlow.BuildSucceedsIff` | src/channels/rdpgfx.c:409-599 | in the buffers of the call sites every AVC420 and progressive frame is built, an AVC444 frame exactly if its main stream fits 30 bits |
| `GraphicsFlow.RunKeepsInv` | src/channels/rdpgfx.c:311-346 | every admissible run keeps the ring snapshots of the last eight frames exact |
| `GraphicsFlow.BudgetIsExact` | src/channels/rdpgfx.c:337-345 | in every run, whenever the budget is consulted the ring gives exactly the unacknowledged octets |
| `GraphicsFlow.MaySendIff` | src/channels/rdpgfx.c:318-346 | in every run, exactly when a frame may be sent: behind by nothing, or by at most 3, 1 or 0 frames for queue depths 0, 1 and more with under 1 MiB unacknowledged, or unthrottled |
| `GraphicsFlow.AckReadsBack` | src/channels/rdpgfx.c:299-309 | an acknowledgement written out field by field is read as its frame id and queue depth |
| `GraphicsFlow.ThrottledSendIsBounded` | src/channels/rdpgfx.c:318-346 | in every run a throttled send leaves at most four frames in flight and less than 1 MiB plus that frame unacknowledged |
| `GraphicsFlow.FullyAckedIsNeverBlocked` | src/daemon/conn.c:3272-3414 | in every run whose AVC444 main streams fit, so in all AVC420 and progressive runs, a fully acknowledged stream may send |
| `GraphicsFlow.FullyAckedIsBlockedIff` | src/channels/rdpgfx.c:318-346 | in general it is blocked exactly if the frames refused since fill the window |
| `GraphicsFlow.OversizedMainStreamBlocks` | src/daemon/conn.c:3324-3374 | a run in which one AVC444 main stream of 0x3FFFFFF2 octets blocks a fully acknowledged stream |
| `GraphicsFlow.Flow.FrameSent` | src/channels/rdpgfx.c:311-316 | total and ring are updated in place as specified |
| `GraphicsFlow.Flow.MaySendFrame` | src/channels/rdpgfx.c:318-346 | the decision is the specified one |
| `GraphicsFlow.Flow.OfferFrame` | src/daemon/conn.c:3272-3414 | deciding, numbering and accounting a frame is the specification's step |
| `GraphicsFlow.Flow.OnAck` | src/daemon/conn.c:3009-3017 | an acknowledgement is the specification's step |
| `PduFraming.VerdictIsFinal` | src/daemon/conn.c:1317-1347 | a complete or malformed verdict is unchanged by later bytes |
| `PduFraming.PacketIsFramed` | src/daemon/conn.c:1317-1347 | a TPKT of RFC 1006 or a fast-path packet of either length form, its octets written out, is framed with its kind and length whatever follows |
| `PduFraming.PartIsAwaited` | src/daemon/conn.c:1317-1347 | every proper prefix of one waits for more |
| `PduFraming.MalformedIff` | src/wire/tpkt.c:35-55 | a TPKT header is malformed exactly if its reserved octet is set or its length is below 7 |
| `PduFraming.PacketsAreCut` | src/daemon/conn.c:2800-2822 | the concatenation of any packets is cut into those packets |
| `PduFraming.ClientPacketsArrive` | src/daemon/conn.c:2794-2822 | and however it is split into reads, the loop frames exactly them |
| `PduFraming.CutLosesNothing` | src/daemon/conn.c:2800-2822 | PDUs of at least two bytes and the remainder make up the stream |
| `PduFraming.CutExtends` | src/daemon/conn.c:2800-2822 | cutting a longer stream extends the cut of a shorter one |
| `PduFraming.FramingIgnoresSplits` | src/daemon/conn.c:2794-2822 | for every split into reads, framed and still buffered PDUs are those of the stream |
| `PduFraming.LoopDrains` | src/daemon/conn.c:2794-2822 | after the stream, one idle pass more than it has PDUs leaves exactly its PDUs framed and its remainder buffered |
| `PduFraming.SplitsAgree` | src/daemon/conn.c:2794-2822 | while the stream stays open, two splits of it end in the same state |
| `PduFraming.CloseFramesPrefix` | src/daemon/conn.c:2794-2822 | the PDUs framed before the stream closes are its first ones, at most one a pass, and all of them exactly if the buffer then holds no whole PDU |
| `PduFraming.CloseDependsOnReads` | src/daemon/conn.c:2794-2798 | one stream closed after one PDU or after two, by how it was read |
| `PduFraming.ReadersAgree` | src/daemon/conn.c:1349-1396 | on whole PDUs that fit, the blocking reader and the framer agree in both directions; malformed headers are refused by both |
| `PduFraming.ReaderGetsPacket` | src/daemon/conn.c:1349-1396 | the blocking reader gets such a packet exactly if its buffer takes it |
| `PduFraming.Inbound.Fill` | src/sec/tls.c:442-488 | compacting, growing and copying append what was read to what was not consumed |
| `PduFraming.Inbound.Consume` | src/sec/tls.c:497-502 | the consumed octets, or all there are, leave the front |
| `PduFraming.Inbound.OnePass` | src/daemon/conn.c:2803-2822 | one pass on the buffer in place is the specification's, and an oversized PDU is skipped |
| `Tiler.TilesDrawTheFrame` | src/daemon/conn.c:1243-1268 | when the loops end on a frame that ends on the desktop, every pixel of it is in exactly one tile sent, no other pixel in any, and replaying them on any canvas draws the frame |
| `Tiler.FrameIsDrawnIff` | src/daemon/conn.c:1243-1310 | the loops end with every pixel of the 65536x65536 desktop as the frame asks exactly if they can pass both sides and the frame is empty or ends on the desktop |
| `Tiler.LoopsEndIff` | src/daemon/conn.c:1254-1257 | the two loops end exactly for frames without rows and for sides up to 65472 |
| `Tiler.EndedSendsTiles` | src/daemon/conn.c:1254-1268 | when they end they have sent the frame's tiles, band by band |
| `Tiler.NoPixelIsEverWrong` | src/daemon/conn.c:1254-1268 | after any number of iterations on a frame that fits, whether they end or not, every pixel is as it was or as the frame asks |
| `Tiler.WideFrameNeverLeavesFirstBand` | src/daemon/conn.c:1257-1257 | if the width is above 65472 no iteration ends the loops or covers a pixel below the first band |
| `Tiler.WideFrameIsNotDrawn` | src/daemon/conn.c:1257-1257 | a 65535x65 frame at the origin fits, but row 64 is never sent |
| `Tiler.EdgeFrameIsNotDrawn` | src/wire/fastpath.c:236-253 | a 128-pixel row at column 65500: when the loops end its first pixel was not drawn and column 28 was drawn over |
| `Tiler.CopyTile` | src/daemon/conn.c:1255-1268 | the copy out of the flat frame buffer gives the specified tile |
| `Tiler.TilingEndsIff` | src/daemon/conn.c:1254-1257 | a tiling loop ends exactly for sides up to 65472 |
| `Tiler.FragmentsCarryBody` | src/daemon/conn.c:1130-1148 | slices within the limit concatenate to the body, flagged SINGLE or FIRST NEXT* LAST |
| `Tiler.TilePacketsCarryBody` | src/daemon/conn.c:1279-1306 | the same for both ways a tile goes out, every packet within the client's limit |
| `Tiler.ClientGetsEveryTile` | src/daemon/conn.c:1243-1310 | a client reassembling the packets gets every tile's body, in order |
| `Tiler.PacketsDrawTheFrame` | src/daemon/conn.c:1243-1310 | for every tile codec, when the loops end on a frame that fits, the packets, reassembled, decoded and drawn on any canvas, show it |
| `Tiler.FragmentsAreFull` | src/daemon/conn.c:1118-1150 | every fragment but the last is as long as the client's limit allows |
| `FastPath.BuildUpdate` | src/wire/fastpath.c:42-80 | an update is built exactly if it fits the buffer and 15 bits, with its header and lengths |
| `FastPath.UpdateReadsBack` | src/wire/fastpath.c:42-80 | a client reads back its kind, fragment flag and body |
| `FastPath.StreamReadsBack` | src/wire/fastpath.c:42-80 | the stream of any updates is cut into packets and read as those updates |
| `Tiler.StreamDrawsTheFrame` | src/daemon/conn.c:1243-1310 | for every tile codec, when the loops end on a frame that fits, a client cutting the octets sent into packets, reading, reassembling and decoding them draws the frame |
| `Tiler.SendFragments` | src/daemon/conn.c:1118-1150 | the loop sends exactly the specified fragments |
| `Tiler.PushFrame` | src/daemon/conn.c:1243-1310 | wherever the loops end, they send exactly the packets of the tiles of their last iteration, which are the frame's |
| `Camera.UsableFitsIff` | src/channels/cam.c:354-369 | a usable type's real frame fits the bound exactly if its size does not overflow 64 bits |
| `Camera.ModestSidesFit` | src/channels/cam.c:354-392 | for sides below 2^31 a type is usable exactly if its format is one of the five, it needs no decoding and its real frame is not empty and fits |
| `Camera.HugeTypeIsUsable` | src/channels/cam.c:354-392 | a type that is accepted although its real frame is too large |
| `Camera.PickIsPreferred` | src/channels/cam.c:371-397 | a type is chosen exactly if one is usable: the first usable NV12, else I420, else YUY2, else RGB24, else RGB32 |
| `Camera.PickMediaType` | src/channels/cam.c:371-397 | the nested loops make that choice |
| `Camera.SelectionIsPreferred` | src/channels/cam.c:488-498 | the answer to a media type list starts that type of its first 64, or stops |
| `Camera.TurnKeepsInv` | src/channels/cam.c:421-520 | every message keeps the link between phase and what was sent |
| `Camera.EveryRunFollowsScript` | src/channels/cam.c:409-520 | in every run what was sent since the device opened is a prefix of the script, and while streaming one SampleRequest more than responses accepted |
| `Camera.AnsweringClientStreams` | src/channels/cam.c:409-520 | a client that answers each request gets to streaming in the preferred type and is asked for one sample more than it delivered |
| `Camera.ErrorSilencesDevice` | src/channels/cam.c:463-520 | after an error nothing more is sent, whatever the device says |
| `Camera.DeviceIsOpenedIff` | src/channels/cam.c:421-461 | a device is opened exactly if none is and its name has 1 to 250 octets |
| `Camera.Negotiation.DeviceOpened` | src/channels/cam.c:409-419 | opening in place is the specification's step |
| `Camera.Negotiation.Negotiate` | src/channels/cam.c:421-461 | a message on either channel in place is the specification's step |
| `Camera.Negotiation.NegotiateDevice` | src/channels/cam.c:463-520 | so is one on the device channel |

## Left out

- Channel creation and closing on the dynamic-channel transport: the dispatcher is modelled while the set of open channels stays fixed.
- Printer names in device announcements, and what a client does with a request beyond reading it and keeping a file's octets.
- TLS, MCS and X.224: the transport is an ordered, lossless list of payloads; I/O errors and failing allocations do not occur.
- Aliasing: a parser's pointers into its input are ranges of it (CredSSP, CF_HTML) or the octets pointed at.
- The persistent bitmap cache, RLE, H.264 and progressive encoders; a tile's update body is an arbitrary decodable function of the tile, and a graphics frame is known by the lengths of its streams.
- The FNV hash of cursors is an arbitrary function; the pixel conversion of the New Pointer update is not modelled.
- The reactivation handshake, display resizing, and the audio, touch and RemoteApp channels: builders and parsers of single messages that keep little state between them.
- TSCredentials parsing and the cryptography of network-level authentication.
- The parsing of camera messages from octets: the negotiation is modelled on parsed messages, with a malformed one changing nothing.
- PushFrame: frames whose loops do not end are excluded: a height above zero with a side above 65472; see LoopsEndIff.
- TilesDrawTheFrame: frames that reach past the desktop's edge or on which the loops do not end are excluded, because they are not drawn; see FrameIsDrawnIff.
- PacketsDrawTheFrame: limited to the same frames.
- StreamDrawsTheFrame: limited to the same frames.
- SplitsAgree: speaks of a stream that stays open; CloseFramesPrefix says what is framed when it closes.
- EveryJobOwnsOneEntry: runs are limited to fewer than 2^32 IRPs and to print jobs on announced printers; ReserveKeepsDistinctIff, WrappedCounterCollides and OwnershipSurvivesIffPrinter say what fails beyond.
- EveryPrintJobKeepsItsPromise: limited to the same runs.
- JobFateIsWhatTheClientSent: limited to the same runs.
- AnswerReachesSession: limited to the same runs and to devices that are no printers; OwnershipSurvivesIffPrinter and DriveRequestsAreConserved say what becomes of the others.
- ReadReturnsThePart: limited to the same runs and devices.
- SessionReadsWhatItWrote: limited to the same runs and devices, to writes that each start where the one before ended.
- DriveRequestsAreConserved: limited to the same runs.
- AnySplitIsDelivered: channel ids are below 2^31, as the table keeps them in signed integers, and the last part is not empty, because an empty DATA after the whole PDU is a PDU of its own.
- EnlargedShrinksBack: the small cursor touches the limit; the code picks the scaled size and does not know the original one.
- GraphicsRoundTrip: the framed length fits 32 bits, as its length fields require.
- ThrottledSendIsBounded: runs are limited to fewer than 2^32 frames below 4 GiB and to acknowledgements that name frames sent and do not go back.
- ParseStaysInside: the components are read to the end of the input, past the end of the outer SEQUENCE, as the code does.
- FullyAckedIsNeverBlocked: AVC444 main streams above 0x3FFFFFFF - 14 octets are excluded; see OversizedMainStreamBlocks.
- ReadersAgree: says nothing of a PDU cut short by the end of the stream, which the blocking reader does not notice.
