# Verified model of the charger firmware

A Dafny model, with proofs, of three parts of an IEC 61851-1 AC charger: the nanopb codec that
carries messages between the Linux side and the microcontroller, the charging state machine, and
the sampling of the control pilot. `dafny verify dfyconfig.toml` checks everything.

## What is modelled

**The codec** (`Words`, `Varint`, `VarintScan`, `Schema`, `Codec`, `WireLemmas`, `Merge`, `Unpacked`,
`OutStream`, `Encoder`, `InStream`, `Decoder`, `EvseMessages`). `Schema` describes messages by a
descriptor: scalars, packed repeated scalars, oneof scalars and oneof submessages nested to any
depth. `Codec` says which bytes a message becomes and what any byte string decodes to. The classes
`OutStream` and `InStream` with the methods of `Encoder` and `Decoder` follow the C code (position,
byte counts, sizing streams, substreams, the split-word varint loop, the two varint readers) and
are proved to do exactly that. `Merge` says, without reference to bytes, what decoding on top of an
existing message amounts to; round trip, concatenation and tolerance of unknown fields follow from
it. `Unpacked` shows that repeated fields read the same packed or one by one. `EvseMessages`
instantiates everything for `HighToLow` and `LowToHigh`.

**Descriptors** (`FieldInfo`, `FieldIter`, `RequiredFields`). The packed 1/2/4/8-word field
descriptors with their static assertions, the cyclic field iterator that looks up tags in them, and
the bitmap of required fields.

**The charging state machine** (`Fsm`, `FsmRuns`, `FsmSafety`, `FsmHistory`, `FsmSignal`,
`FsmEvents`, `FsmPlug`, `FsmReset`, `FsmLock`, `FsmPhases`, `Controller`). `Fsm` is the machine as a
function from state and action to state, events included. `Controller` is the object that updates
its fields in place and is proved to follow it. `FsmRuns` shows that switching depends on a few
fields only and that each step gives one relay command. The other modules prove what holds over all
runs, and `Controller.Drive` that the object goes through such runs: any sequence of commands and
run steps, any pilot signal, any clock, a relay that may refuse to move, and either initial value of
the uninitialised `simplified_mode`. `FsmSafety` is about the relay: where it may be closed, the
forced stop, when it closes. `FsmHistory` gives every mode and output as a function of the commands
given and the states seen, `FsmSignal` the meaning of the signal in volts, `FsmEvents` when each event
is emitted and in which order, `FsmPlug` the sessions between plugging in and unplugging, `FsmLock`
the connector lock and the RCD, `FsmPhases` and `FsmReset` the phases and the emergency switch.

**The sampler** (`SamplerProtocol`, `RingBuffer`, `Sampler`, `PilotVoltage`). A transition system of
timer interrupts, SPI completions and task accesses in any interleaving; the ring buffer with its
two loops; and the objects whose methods follow the protocol, up to a whole iteration of the task's
loop among interrupts. `PilotVoltage` converts counts to volts and follows the signal from the last
ten samples through the state machine to the relay.

## Results that differ from what one might expect

- The static assertions of the field descriptors let two kinds of fields through that do not come
  back: array size zero in one word, and a size offset such as 300 in four or eight words
  (`FieldInfo.PackRoundTrip` gives the exact condition, `ZeroArrayLetThrough` and
  `WideOffsetLetThrough` the inputs).
- Two `HighToLow` messages in one buffer do not always mean that the last one wins: a second
  `SetPWM` that wants state ON or duty cycle zero leaves the first one's value
  (`EvseMessages.LastCommandWins` gives the exact condition).
- The declared maximum sizes hold for the declared enumerators, not for every value that the C
  variables can hold and that the decoder accepts (`HighSize`, `LowSize`).
- The 32-bit varint reader returns the number that a varint denotes exactly if it fits in 32 bits,
  but does not always fail otherwise: it notices overflow in a fifth byte only if that byte is the
  last one (`Varint.Varint32Exact` gives the exact condition, `UnnoticedOverflow` an input). On
  minimal encodings it fails exactly where it should.
- The forced stop works in a window: it is exact in 32-bit ticks, hence holds until the clock has
  gone around once (`FsmSafety.StopIsExact`).
- The connector is locked for one second only: the countdown that is to stop the lock's motor
  unlocks it, also while the power stays on (`FsmLock.LockedForASecond`).
- Ventilated charging is reported until a vehicle is first seen in A or B and never again, whatever
  the ventilation (`FsmHistory.VentilatedChargingEnds`).
- A step from B into C in simplified mode, with permission and a PWM that has just begun, requests
  power twice (`FsmEvents.RequestsExactly`); one from C into D with permission, the relay open and
  no ventilation reports that twice (`VentilationExactly`).
- The sampling task can read one frame twice, though never an older one after a newer one. It takes
  an acquisition that completes between the task's wake-up and its taking of the buffer: without
  one no frame is read twice (`SamplerProtocol.ReadsIncrease`), and after one a frame can be
  (`PendingWakeRepeats`).

## Model

| member | source | states |
|---|---|---|
| Varint.VarintBytesDenote | firmware/pb_codec/nanopb/pb_encode.c:570-602 | The encoding of v is one complete varint whose seven-bit groups sum to v |
| Varint.VarintBytesMinimal | firmware/pb_codec/nanopb/pb_encode.c:570-602 | No byte string with fewer bytes denotes the same number |
| Varint.VarintAtMost10 | firmware/pb_codec/nanopb/pb_encode.c:573 | A 64-bit value never needs more than the ten bytes of the local buffer |
| Varint.Varint64RoundTrip | firmware/pb_codec/nanopb/pb_decode.c:240-260 | The 64-bit reader undoes the minimal encoding of every 64-bit value, whatever follows it |
| Varint.Varint32Refines64 | firmware/pb_codec/nanopb/pb_decode.c:170-232 | Whenever the 32-bit reader succeeds, the 64-bit reader succeeds on the same bytes, consumes as many and agrees modulo 2^32 |
| Varint.Varint32Canonical | firmware/pb_codec/nanopb/pb_decode.c:170-232 | On minimal encodings of v below 2^63 the 32-bit reader succeeds if and only if v is below 2^32, and then returns v |
| Varint.Varint32Negative | firmware/pb_codec/nanopb/pb_decode.c:207-217 | A negative int32, sign-extended and encoded in ten bytes, decodes to its two's complement |
| Varint.AcceptsExactly | firmware/pb_codec/nanopb/pb_decode.c:193-227 | A complete varint of at most ten bytes is accepted if and only if its number fits in 32 bits, or it has more than five bytes and is padded with zeros or with the sign extension of a negative int32 |
| Varint.Varint32Exact | firmware/pb_codec/nanopb/pb_decode.c:170-232 | Over every such varint, minimal or not, the 32-bit reader returns the number that it denotes if and only if that number is below 2^32; and exactly when it succeeds with another number |
| Varint.UnnoticedOverflow | firmware/pb_codec/nanopb/pb_decode.c:219-227 | The input to the exception in Varint32Exact: six bytes on which the 32-bit reader returns 0 and the 64-bit reader 2^32 |
| Varint.VarintStable | firmware/pb_codec/nanopb/pb_decode.c:170-260 | Both readers look at no byte after the varint |
| Varint.ZigZagBijection | firmware/pb_codec/nanopb/pb_decode.c:1337-1349 | ZigZag and its inverse undo each other on every int64 and every 64-bit pattern, and number 0, -1, 1, -2, 2 in that order |
| Schema.Default | firmware/pb_codec/nanopb/pb_decode.c:857-972 | The default message of every well-formed descriptor is well formed, arrays empty and unions unselected |
| Schema.IndexOfTag | firmware/pb_codec/nanopb/pb_common.c:195-244 | Finds an index whose field has the tag, or none has it |
| Codec.DecodeScalar | firmware/pb_codec/nanopb/pb_decode.c:1406-1476 | A decoded scalar always fits its C member, and at least one and at most all bytes are consumed |
| Codec.With | firmware/pb_codec/nanopb/pb_decode.c:519-547 | Writing a field keeps the message well formed: no union ever holds two members |
| Codec.DecodePacked | firmware/pb_codec/nanopb/pb_decode.c:476-506 | A packed record never fills an array beyond its size |
| Codec.DecodeMsg | firmware/pb_codec/nanopb/pb_decode.c:978-1140 | Decoding any bytes into a well-formed message fails or gives a well-formed message of the same descriptor |
| WireLemmas.LittleEndianRoundTrip | firmware/pb_codec/nanopb/pb_encode.c:633-658 | Reading little-endian bytes gives back the number they were made from |
| WireLemmas.ScalarRoundTrip | firmware/pb_codec/nanopb/pb_encode.c:762-840 | Every value of every scalar type decodes from its encoding, whatever follows, consuming exactly it |
| WireLemmas.PackedRoundTrip | firmware/pb_codec/nanopb/pb_decode.c:476-506 | Packed elements are appended in order to those already there if the array has room, and are an overflow error otherwise |
| WireLemmas.PackedLength | firmware/pb_codec/nanopb/pb_encode.c:145-171 | The length of a packed array is 4 or 8 per fixed element, and between 1 and 10 bytes per varint |
| WireLemmas.RecordRoundTrip | firmware/pb_codec/nanopb/pb_decode.c:288-315 | A key in front of a payload reads as one record with that tag, wire type and payload |
| WireLemmas.RecordStable | firmware/pb_codec/nanopb/pb_decode.c:305-315 | A complete record reads the same whatever bytes follow it |
| WireLemmas.DecodeConcat | firmware/pb_codec/nanopb/pb_decode.c:1004-1100 | Decoding two byte strings in a row is decoding the second on top of the result of the first |
| WireLemmas.UnknownFieldIgnored | firmware/pb_codec/nanopb/pb_decode.c:1029-1063 | A well-formed field with an unknown tag changes nothing, wherever it is inserted at a field boundary |
| WireLemmas.WrongTypeRefused | firmware/pb_codec/nanopb/pb_decode.c:393-462 | A record whose wire type is not the one its field takes (0, 1, 5 for the scalar, 2 for a submessage, either for a repeated field) makes the whole decode fail, wherever it is |
| WireLemmas.BadKeyRefused | firmware/pb_codec/nanopb/pb_decode.c:288-315 | A key with tag zero or wire type 3, 4, 6 or 7, or an incomplete one, makes the whole decode fail |
| WireLemmas.UnsignedDecodes | firmware/pb_codec/nanopb/pb_decode.c:1401-1428 | An unsigned member of 1, 2, 4 or 8 bytes takes the varint's number exactly if it is below 2^8, 2^16, 2^32 or 2^64; a bool takes whether it is other than zero |
| WireLemmas.SignedDecodes | firmware/pb_codec/nanopb/pb_decode.c:1430-1475 | A signed member takes the varint as an int64, shorter ones its lower 32 bits as an int32, exactly if that is in the member's range |
| Merge.Merged | firmware/pb_codec/nanopb/pb_decode.c:519-547 | The merge of two well-formed messages is well formed: at most one member of every union stays selected |
| Merge.FieldReads | firmware/pb_codec/nanopb/pb_encode.c:415-467 | What the encoder writes for a field reads as exactly one record with the field's tag |
| Merge.FieldDecodes | firmware/pb_codec/nanopb/pb_decode.c:464-552 | Decoding a field's own record merges the field into what was there, or overflows exactly if its array has no room |
| Merge.DecodeIsMerge | firmware/pb_codec/nanopb/pb_decode.c:978-1140 | Decoding an encoded message on top of another is their merge if the arrays have room, goes on with the bytes behind it, and fails otherwise |
| Merge.DecodeStops | firmware/pb_codec/nanopb/pb_decode.c:501-502 | An array without room makes the whole decode fail, whatever follows |
| Merge.MergeIntoDefault | firmware/pb_codec/nanopb/pb_decode.c:983-1003 | Merging into a fresh message gives the message, and fits exactly if its counts are within bounds |
| Merge.RoundTrip | firmware/pb_codec/nanopb/pb_encode.c:509-531 | For every descriptor and message, decoding the encoding gives the message back if its array counts are within bounds, and fails otherwise |
| Merge.ConcatenationMerges | firmware/pb_codec/nanopb/pb_decode.c:519-547 | Decoding any number of concatenated encodings is the left fold of the merge, including where it fails |
| Merge.DecodeKeepsCounts | firmware/pb_codec/nanopb/pb_decode.c:476-517 | Whatever the bytes, a successful decode leaves every array count within its array, at every depth |
| Unpacked.OneByOneDecodes | firmware/pb_codec/nanopb/pb_decode.c:508-517 | Records of one element each append their elements in order while the array has room and fail otherwise |
| Unpacked.UnpackedAsPacked | firmware/pb_codec/nanopb/pb_decode.c:475-517 | Any elements decode to the same message one by one as packed, on top of any message and in front of any bytes, overflow included |
| OutStream.OutStream.BufWrite | firmware/pb_codec/nanopb/pb_encode.c:52-62 | Exactly the given bytes appear at the position and every other byte stays |
| OutStream.OutStream.Write | firmware/pb_codec/nanopb/pb_encode.c:81-102 | Writes all bytes and counts them, or, exactly if they exceed max_size, fails and touches nothing outside the room; a sizing stream only counts |
| OutStream.SplitVarint | firmware/pb_codec/nanopb/pb_encode.c:572-599 | The split-word loops fill at most ten bytes with the minimal encoding of low + 2^32 * high |
| OutStream.LowGroups | firmware/pb_codec/nanopb/pb_encode.c:577-583 | The first loop emits the groups of the low word and leaves the rest of the value to encode |
| OutStream.HighGroups | firmware/pb_codec/nanopb/pb_encode.c:585-597 | The second loop joins the group that both words share and emits the groups of the high word |
| OutStream.OutStream.EncodeVarint32 | firmware/pb_codec/nanopb/pb_encode.c:570-602 | Attempts to write the minimal encoding of low + 2^32 * high |
| OutStream.OutStream.EncodeVarint | firmware/pb_codec/nanopb/pb_encode.c:604-620 | The one-byte path and the split path write the same minimal encoding |
| OutStream.OutStream.EncodeSvarint | firmware/pb_codec/nanopb/pb_encode.c:622-631 | Writes the varint of the ZigZag number |
| OutStream.OutStream.EncodeFixed32 | firmware/pb_codec/nanopb/pb_encode.c:633-642 | Writes four little-endian bytes |
| OutStream.OutStream.EncodeFixed64 | firmware/pb_codec/nanopb/pb_encode.c:645-658 | Writes eight little-endian bytes |
| OutStream.OutStream.EncodeTag | firmware/pb_codec/nanopb/pb_encode.c:661-665 | Writes the field key |
| OutStream.AttemptBoth | firmware/pb_codec/nanopb/pb_encode.c:81-102 | Two attempts in a row make one attempt at both, with the same success condition and confinement |
| Encoder.EncodeScalar | firmware/pb_codec/nanopb/pb_encode.c:762-840 | Writes the scalar's encoding for every type and every value of the C member |
| Encoder.SizeOfElements | firmware/pb_codec/nanopb/pb_encode.c:145-171 | The size that precedes a packed array is exactly the number of bytes its elements take |
| Encoder.EncodeArray | firmware/pb_codec/nanopb/pb_encode.c:125-193 | Writes nothing for an empty array, fails for a count beyond the array, otherwise writes key, exact length and elements |
| Encoder.EncodeSubmessage | firmware/pb_codec/nanopb/pb_encode.c:710-758 | Writes the length and the message, succeeding exactly if both fit and the counts are within bounds; the sizing pass is exact at every depth |
| Encoder.EncodeCounted | firmware/pb_codec/nanopb/pb_encode.c:736-757 | The second pass succeeds whenever the counted size fits, so "submsg size changed" is unreachable |
| Encoder.EncodeField | firmware/pb_codec/nanopb/pb_encode.c:415-467 | Zero singular fields and unselected union members write nothing; every other field writes its record |
| Encoder.Encode | firmware/pb_codec/nanopb/pb_encode.c:509-531 | Succeeds if and only if all counts are within bounds and the message's bytes fit; on failure nothing outside the room is touched |
| Encoder.GetEncodedSize | firmware/pb_codec/nanopb/pb_encode.c:554-563 | Reports exactly the length of the encoding, or failure exactly for counts out of bounds |
| Encoder.EncodeToBuffer | firmware/pb_codec/nanopb/pb_encode.c:64-79 | Encoding into a buffer succeeds if and only if the computed size fits, writes that many bytes at the front and no others |
| InStream.InStream.BufRead | firmware/pb_codec/nanopb/pb_decode.c:70-83 | Copies exactly count bytes to the front of the destination and moves the position by count |
| InStream.InStream.Read | firmware/pb_codec/nanopb/pb_decode.c:85-120 | Succeeds if and only if count bytes are left; position and bytes_left move by the same amount |
| InStream.InStream.ReadByte | firmware/pb_codec/nanopb/pb_decode.c:124-140 | Delivers the next byte, failing exactly at the end |
| InStream.InStream.DecodeVarint32Eof | firmware/pb_codec/nanopb/pb_decode.c:170-232 | The reader delivers what the 32-bit reader is specified to deliver, with the same bytes consumed; eof exactly on an empty stream |
| InStream.InStream.DecodeMultibyte | firmware/pb_codec/nanopb/pb_decode.c:193-228 | The do-while loop after a first byte with continuation bit delivers the specified result or failure |
| InStream.InStream.DecodeVarint | firmware/pb_codec/nanopb/pb_decode.c:240-260 | The loop delivers what the 64-bit reader is specified to deliver, with the same bytes consumed |
| InStream.InStream.DecodeSvarint | firmware/pb_codec/nanopb/pb_decode.c:1337-1349 | Delivers the signed value of the varint read |
| InStream.InStream.DecodeFixed | firmware/pb_codec/nanopb/pb_decode.c:1351-1398 | Delivers the little-endian number of the next four or eight bytes |
| InStream.InStream.SkipVarint | firmware/pb_codec/nanopb/pb_decode.c:263-272 | Skips up to and including the first byte without continuation bit, however many there are |
| InStream.InStream.SkipString | firmware/pb_codec/nanopb/pb_decode.c:274-286 | Skips a length and as many bytes |
| InStream.InStream.SkipField | firmware/pb_codec/nanopb/pb_decode.c:305-315 | Skips exactly the payload of the wire type, and fails for unknown ones |
| InStream.InStream.DecodeTag | firmware/pb_codec/nanopb/pb_decode.c:288-303 | Splits the key into tag and wire type |
| InStream.InStream.MakeSubstream | firmware/pb_codec/nanopb/pb_decode.c:359-372 | The substream holds exactly the announced bytes, which leave the parent's count at once |
| InStream.InStream.CloseSubstream | firmware/pb_codec/nanopb/pb_decode.c:374-387 | The parent resumes right behind the substream, whatever was read of it |
| Decoder.TruncateKeeps | firmware/pb_codec/nanopb/pb_decode.c:1457-1474 | Storing a signed value in a C member keeps it if and only if it is in the member's range |
| Decoder.DecodeUnsigned | firmware/pb_codec/nanopb/pb_decode.c:1408-1428 | The compare-after-store test accepts exactly the values in range |
| Decoder.DecodeSigned | firmware/pb_codec/nanopb/pb_decode.c:1430-1475 | Likewise for signed members, with 32-bit sign handling for members of up to 32 bits |
| Decoder.DecodePackedArray | firmware/pb_codec/nanopb/pb_decode.c:476-506 | Succeeds, with the same elements, exactly if the packed payload decodes within the array's room, and leaves the stream behind the record |
| Decoder.DecodeArray | firmware/pb_codec/nanopb/pb_decode.c:475-517 | A repeated field takes a packed record or one more element |
| Decoder.DecodeSubmessage | firmware/pb_codec/nanopb/pb_decode.c:1568-1618 | Decodes the payload on top of what the destination holds and leaves the stream behind it |
| Decoder.DecodeField | firmware/pb_codec/nanopb/pb_decode.c:464-552 | Decodes the field exactly as specified for the record at the front of the stream |
| Decoder.DecodeOne | firmware/pb_codec/nanopb/pb_decode.c:1010-1099 | One round of the loop applies exactly the record at the front of the stream, or skips it if its tag is unknown |
| Decoder.DecodeInner | firmware/pb_codec/nanopb/pb_decode.c:978-1140 | Terminates on every stream, succeeds exactly if its bytes decode, with that result, and consumes all of them; never leaves its window |
| Decoder.DecodeBuffer | firmware/pb_codec/nanopb/pb_decode.c:1170-1182 | pb_decode on a buffer is the decoding function of its bytes |
| EvseMessages.HighWire | firmware/pb_codec/high_to_low.pb.h:80-97 | The frame of each command, byte by byte |
| EvseMessages.HighSize | firmware/pb_codec/high_to_low.pb.h:119 | Nine bytes suffice if and only if the command does not set both a state of 128 or more and a nonzero duty cycle |
| EvseMessages.LowWire | firmware/pb_codec/low_to_high.pb.h:73-77 | The frame of each report, byte by byte |
| EvseMessages.LowSize | firmware/pb_codec/low_to_high.pb.h:89 | Two bytes, the size of the send buffer, suffice if and only if the event is below 128 |
| EvseMessages.CommandsMerge | firmware/pb_codec/nanopb/pb_decode.c:519-547 | Decoding any number of concatenated commands on top of a command is the left fold of "last member wins, SetPWM merges field by field" |
| EvseMessages.CommandsDecode | firmware/bsp_drivers/rpmsg.cpp:71-73 | The same from a fresh message; a single command is the round trip |
| EvseMessages.LastCommandWins | firmware/pb_codec/high_to_low.pb.h:80-97 | Of two commands in one buffer the last one wins if and only if it selects a member and leaves out no zero that the first one had set |
| EvseMessages.AnyMessageIsACommand | firmware/pb_codec/high_to_low.pb.h:33-42 | Every value that decoding can leave in the struct is exactly one command |
| EvseMessages.ReportsDecode | firmware/pb_codec/low_to_high.pb.h:73-77 | Decoding any number of concatenated reports gives the last one |
| FieldInfo.PackedFirstWord | firmware/pb_codec/nanopb/pb.h:716-764 | In every format the first word carries the length code, the low tag bits and the type where the search looks for them |
| FieldInfo.LoadRecovers | firmware/pb_codec/nanopb/pb_common.c:8-72 | Whatever passes the assertions unpacks to itself up to a 1-word array size, which becomes 1, and a wide size offset, which becomes its low byte |
| FieldInfo.PackRoundTrip | firmware/pb_codec/nanopb/pb_common.c:8-72 | A field that passes the assertions unpacks to itself if and only if a 1-word format has array size 1 and a wide one a size offset from 0 to 127 |
| FieldInfo.ZeroArrayLetThrough | firmware/pb_codec/nanopb/pb.h:741-743 | An asserted 1-word field with array size 0 unpacks with array size 1 |
| FieldInfo.WideOffsetLetThrough | firmware/pb_codec/nanopb/pb.h:750-754 | An asserted 4-word field with size offset 300 unpacks with size offset 44 |
| FieldIter.EntryReads | firmware/pb_codec/nanopb/pb_common.c:8-72 | Every asserted entry of a bound descriptor is recovered at its prefix-sum offset, tag and type unchanged |
| FieldIter.IndicesFit | firmware/pb_codec/nanopb/pb_common.c:141-152 | No 16-bit index of the iterator wraps |
| FieldIter.RequiredCount | firmware/pb_codec/nanopb/pb_common.c:141-152 | The required-field index is the number of earlier fields with repetition bits zero |
| FieldIter.SubmessageCount | firmware/pb_codec/nanopb/pb_common.c:141-152 | The submessage index is the number of earlier fields of type 8 or 9 |
| FieldIter.FieldIter.LoadValues | firmware/pb_codec/nanopb/pb_common.c:8-72 | Loads what is recovered of the field at the index, failing exactly past the end |
| FieldIter.FieldIter.Advance | firmware/pb_codec/nanopb/pb_common.c:122-154 | Moves all four indices to the next field, or all to the first one from the last |
| FieldIter.FieldIter.Begin | firmware/pb_codec/nanopb/pb_common.c:156-164 | Starts on the first field, failing exactly on an empty list |
| FieldIter.FieldIter.Next | firmware/pb_codec/nanopb/pb_common.c:188-193 | Goes to the next field, and reports the wrap to the first |
| FieldIter.FieldIter.Find | firmware/pb_codec/nanopb/pb_common.c:195-244 | From any field of any asserted list in tag order, succeeds if and only if the tag exists, on that field with its unpacked values and prefix-sum indices; otherwise returns to where it was; at most as many advances as there are fields |
| FieldIter.FieldIter.Visit | firmware/pb_codec/nanopb/pb_common.c:221-236 | One round of the search hits exactly if the next field has the tag, although six tag bits are compared first |
| FieldIter.FieldIter.Search | firmware/pb_codec/nanopb/pb_common.c:207-243 | The search loop finds the tag, or has seen every field without it, within one cycle |
| FieldIter.LookupAgrees | firmware/pb_codec/nanopb/pb_common.c:195-244 | The lookup by which the decoder is specified is the one that the iterator performs |
| RequiredFields.WordAdd | firmware/pb_codec/nanopb/pb_decode.c:1091-1096 | Setting a bit of the bitmap adds one member to the set it stands for |
| RequiredFields.WordIsMask | firmware/pb_codec/nanopb/pb_decode.c:1119-1136 | A word without higher bits equals the mask of r bits if and only if all r fields are in the set |
| RequiredFields.MaskShifts | firmware/pb_codec/nanopb/pb_decode.c:1129-1131 | The shifted remainder mask has exactly the low r bits |
| RequiredFields.FieldsSeen.Mark | firmware/pb_codec/nanopb/pb_decode.c:1091-1096 | Notes the field if its index is below 64 and nothing else |
| RequiredFields.FieldsSeen.AllPresent | firmware/pb_codec/nanopb/pb_decode.c:1109-1137 | The whole-word and remainder tests accept if and only if every tracked required field was noted |
| RequiredFields.CheckRequired | firmware/pb_codec/nanopb/pb_decode.c:991-1137 | For any number of required fields, any order and any repetition, accepts if and only if every one with index below min(count, 64) arrived |
| FsmRuns.StepDecides | firmware/lib/iec61851_fsm.cpp:77-243 | In every state and history a processed step gives the relay exactly one command, decided by seven fields, and leaves the next step exactly the settled fields |
| FsmRuns.ActRefines | firmware/lib/iec61851_fsm.cpp:51-285 | Under every command and step, the switching fields and the relay with its log evolve by themselves: nothing else influences them |
| FsmSafety.RunExists | firmware/main.cpp:162-182 | Every sequence of commands and steps has a run from every start |
| FsmSafety.TraceTellsRelay | firmware/lib/iec61851_fsm.cpp:342-380 | PowerOn and PowerOff strictly alternate, PowerOn first, and the last one tells the relay's position, also if the relay refuses commands |
| FsmSafety.PowerOnCounts | firmware/lib/iec61851_fsm.cpp:342-361 | A step emits PowerOn exactly if the relay closes in it |
| FsmSafety.RelayInvariant | firmware/lib/iec61851_fsm.cpp:77-246 | A closed relay implies that the last processed state is C or D and the RCD is armed, unless the relay ever reported that it failed to open |
| FsmSafety.OpenOutsideCharging | firmware/lib/iec61851_fsm.cpp:79-133 | After every step that sees Disabled, A, B, E, F or DF the relay is open, also on branches that do not call power_off |
| FsmSafety.ClosedMeansStopSeen | firmware/lib/iec61851_fsm.cpp:148-158 | In every run, a closed relay with the PWM seen stopped implies an earlier step that saw the stop first, with the relay closed, and started the countdown, and no step since that saw the PWM running |
| FsmSafety.FirstStoppedStarts | firmware/lib/iec61851_fsm.cpp:192-201 | The guard prev_pwm_running recognises exactly the first step in C or D that finds the PWM stopped with the relay closed |
| FsmSafety.ForcedStop | firmware/lib/iec61851_fsm.cpp:192-201 | With so many ticks per millisecond, from 6000 times that many after the first step in C or D that finds the PWM stopped with the relay closed, until 2^32 ticks after it, every stable step leaves the relay open, across tick wrap-around, C/D changes and any commands, unless a step saw the PWM running again |
| FsmSafety.StopIsExact | firmware/lib/iec61851_fsm.cpp:148-158 | At every step in C or D that finds the PWM stopped and the relay closed there was a first such step, and the relay survives if and only if the clock shows less than 6000 ms since then, modulo 2^32 ticks |
| FsmSafety.StoppedRelayIsYoung | firmware/lib/iec61851_fsm.cpp:148-201 | Whatever the run, a step that finds the PWM stopped leaves the relay closed only less than 6000 ms after the first such step |
| FsmSafety.PeriodIsSixSeconds | firmware/lib/iec61851_fsm.hpp:103 | The period of the countdown is 6000 times the ticks per millisecond, modulo 2^32 |
| FsmSafety.LateAcrossWrap | firmware/lib/iec61851_fsm.cpp:28-35 | The 32-bit difference is late for every true time in the window, wherever the counter wraps |
| FsmSafety.PermissionIsHistory | firmware/lib/iec61851_fsm.cpp:489-491 | power_on_allowed holds if and only if the latest allow_power_on(true) has no later revocation by command or by a step in A, E or Disabled |
| FsmSafety.PwmIsHistory | firmware/lib/iec61851_fsm.cpp:250-283 | cur_pwm_running holds if and only if the latest set_pwm_on has no later revocation by command or by a step in A or E |
| FsmSafety.ClosesExactly | firmware/lib/iec61851_fsm.cpp:159-210 | The relay closes in a step if and only if it sees C, or D with ventilation, with both grants live, and the relay obeys |
| FsmHistory.EnabledIsHistory | firmware/lib/iec61851_fsm.cpp:264-283 | The controller is out of Disabled if and only if enable or set_pwm_f came after the latest disable |
| FsmHistory.CurrentIsHistory | firmware/lib/iec61851_fsm.cpp:401-403 | The reported state is the last one seen, unless enable, disable or set_pwm_f has set A, Disabled or F since |
| FsmHistory.LastSeenIsHistory | firmware/lib/iec61851_fsm.cpp:245-247 | prev_state is the last state seen in a stable step, Disabled before any |
| FsmHistory.PwmSeenIsHistory | firmware/lib/iec61851_fsm.cpp:245-247 | prev_pwm_running holds if and only if the last stable step found the PWM switched on and was not in A or E |
| FsmHistory.VentilationIsHistory | firmware/lib/iec61851_fsm.cpp:338-340 | Ventilation is what was last set, none at first |
| FsmHistory.WiringIsHistory | firmware/lib/iec61851_fsm.cpp:273-331 | The pilot is on from enable to disable, and the phases chosen are those last set, three at first |
| FsmHistory.SimplifiedIsHistory | firmware/lib/iec61851_fsm.cpp:88-181 | Simplified mode begins exactly where C or D is seen after A, ends exactly where A, or B after A or Disabled, is seen, and starts as memory held it |
| FsmHistory.LatchIsHistory | firmware/lib/iec61851_fsm.cpp:85-88 | The latched phases are those chosen when A was last seen, three before |
| FsmHistory.VentilatedChargingEnds | firmware/lib/iec61851_fsm.cpp:89-118 | Ventilated charging is reported exactly until A or B is first seen |
| FsmHistory.DutyIsHistory | firmware/lib/iec61851_fsm.cpp:250-283 | The duty cycle is the one last switched on, unless switched off since by command or in A or E, then 1.0, or to F, then 0.0; 1.0 at the start |
| FsmHistory.RunningDrives | firmware/lib/iec61851_fsm.cpp:257-261 | While the PWM counts as running, the duty cycle driven is one that set_pwm_on has set |
| FsmSignal.SeesInVolts | firmware/lib/iec61851_fsm.cpp:301-325 | In every run, while enabled, with the PWM stopped or its low half between -13.1 and -10.9 V, a stable step sees A, B, C, D or F if and only if the high half is within 1.1 V of 12, 9, 6, 3 or -12 V |
| FsmSignal.FaultsInVolts | firmware/lib/iec61851_fsm.cpp:297-311 | Otherwise, with the PWM running, it sees E if and only if both halves are within 1.1 V of zero, else DF if and only if their sum is; while disabled it sees Disabled |
| FsmSignal.SeenIsLeft | firmware/lib/iec61851_fsm.cpp:77-247 | A step leaves what it saw as current and previous state, and changes no switching field if it saw nothing |
| FsmSignal.ClosesInVolts | firmware/lib/iec61851_fsm.cpp:159-361 | An open relay closes if and only if the step is stable and enabled, PWM and permission are live, the low half is between -13.1 and -10.9 V, the high half between 4.9 and 7.1 V, or between 1.9 and 4.1 V with ventilation, and the relay obeys |
| FsmSignal.OpensInVolts | firmware/lib/iec61851_fsm.cpp:79-243 | A stable step at 12, 9 or -12 V, with a faulty low half that has a meaning, or while disabled, leaves the relay open |
| FsmEvents.ActEmits | firmware/lib/iec61851_fsm.cpp:51-247 | How often each of the thirteen events is emitted in a step, event by event |
| FsmEvents.RequestsExactly | firmware/lib/iec61851_fsm.cpp:137-182 | CarRequestedPower is emitted exactly where C or D is seen after B, where D is seen after A, and where C meets a live PWM not seen before, with permission, in simplified mode |
| FsmEvents.StopRequestsExactly | firmware/lib/iec61851_fsm.cpp:93-116 | CarRequestedStopPower is emitted exactly on A after a state other than A, Disabled and F, and on B after a state other than A and B |
| FsmEvents.PlugsExactly | firmware/lib/iec61851_fsm.cpp:93-182 | Over every run, CarPluggedIn is emitted exactly on B after A or Disabled and on C or D after A; CarUnplugged exactly on A after a state other than A, Disabled and F |
| FsmEvents.FaultsExactly | firmware/lib/iec61851_fsm.cpp:220-242 | Error_E and Error_DF are emitted exactly where E or DF is seen after another state, Error_RCD exactly in the steps that find the fault flag, stable or not |
| FsmEvents.TransitionsExactly | firmware/lib/iec61851_fsm.cpp:126-240 | BCD_To_EF is emitted exactly on E, F or DF after B, C or D; EF_To_BCD exactly on B, C or D after E or F |
| FsmEvents.VentilationExactly | firmware/lib/iec61851_fsm.cpp:202-217 | Error_VentilationNotAvailable is emitted exactly in D with a live PWM and no ventilation: once for a permission with the relay open, and once for coming from C |
| FsmEvents.MovesExactly | firmware/lib/iec61851_fsm.cpp:342-380 | PowerOn and PowerOff are emitted exactly in the steps in which the relay closes or opens |
| FsmEvents.OpensExactly | firmware/lib/iec61851_fsm.cpp:363-380 | A closed relay opens exactly on Disabled, E, F and DF, on A after other than A, Disabled, F, on B after other than A, B, and on C or D with the PWM stopped too long, if it obeys |
| FsmEvents.RefusalsExactly | firmware/lib/iec61851_fsm.cpp:342-380 | Error_Relais is emitted exactly where the relay is to close or to open and does not |
| FsmEvents.UnpluggedAfterOff | firmware/lib/iec61851_fsm.cpp:93-96 | In every run, wherever CarUnplugged stands in the trace, the power was reported off before it, unless the relay had failed to open |
| FsmPlug.ActNotes | firmware/lib/iec61851_fsm.cpp:85-217 | Among A, B, C and D an action emits a plug event exactly if the processed state leaves or reaches A, and everything else but RCD faults only while a vehicle is plugged in |
| FsmPlug.PlugsAlternate | firmware/lib/iec61851_fsm.cpp:85-217 | On every part of a run that starts in A and sees only A to D, CarPluggedIn and CarUnplugged alternate, every request, power event and error but RCD faults comes between the two, and one more is plugged than unplugged exactly in B, C and D |
| FsmReset.ReclosingIsHistory | firmware/lib/iec61851_fsm.cpp:382-391 | Reclosing is allowed if and only if a country has been set and the latest one is not CH, DK, GB or FR |
| FsmReset.ResetsExactly | firmware/lib/iec61851_fsm.cpp:94-102 | The emergency switch is reset exactly in the steps that report an unplugged vehicle while the latest country allows reclosing |
| FsmLock.LockedForASecond | firmware/lib/iec61851_fsm.cpp:63-67 | The connector is locked exactly while the latest attempt to switch the power was to switch it on and no step has found it 1000 ms old |
| FsmLock.LockIsHistory | firmware/lib/iec61851_fsm.cpp:342-380 | The lock countdown runs since the latest attempt, obeyed or not, until a step finds it elapsed |
| FsmLock.RcdIsHistory | firmware/lib/iec61851_fsm.cpp:342-370 | The RCD is armed if and only if the latest attempt to switch the power, if any, was to switch it on |
| FsmPhases.PhasesStay | firmware/lib/iec61851_fsm.cpp:342-348 | While the relay is closed the power has as many phases as were chosen when A was last seen: they never change under load |
| Controller.Timer.HasElapsed | firmware/lib/iec61851_fsm.cpp:28-35 | True exactly if the countdown runs and the 32-bit tick difference reaches the period |
| Controller.FsmController.constructor | firmware/lib/iec61851_fsm.cpp:37-45 | The object starts in the machine's initial state |
| Controller.FsmController.StartPwm | firmware/lib/iec61851_fsm.cpp:257-261 | set_pwm_on has exactly the machine's effect |
| Controller.FsmController.SetPwmOffNow | firmware/lib/iec61851_fsm.cpp:250-255 | set_pwm_off stops the PWM and withdraws the permission, and changes nothing else but the duty cycle |
| Controller.FsmController.SetPwmFault | firmware/lib/iec61851_fsm.cpp:264-271 | set_pwm_f has exactly the machine's effect |
| Controller.FsmController.EnableControl | firmware/lib/iec61851_fsm.cpp:273-277 | enable has exactly the machine's effect |
| Controller.FsmController.DisableControl | firmware/lib/iec61851_fsm.cpp:279-283 | disable has exactly the machine's effect |
| Controller.FsmController.PowerUp | firmware/lib/iec61851_fsm.cpp:342-361 | A closed relay is left alone; otherwise relay, RCD, lock, lock countdown and event as the machine says |
| Controller.FsmController.PowerDown | firmware/lib/iec61851_fsm.cpp:363-380 | An open relay is left alone; otherwise relay, RCD, lock, lock countdown and event as the machine says |
| Controller.FsmController.ReadCpState | firmware/lib/iec61851_fsm.cpp:289-327 | Updates the state exactly if the voltages mean one, to that one, with every window in volts |
| Controller.FsmController.HandleState | firmware/lib/iec61851_fsm.cpp:78-243 | The switch over the state follows the machine in all eight cases, and emits each event as often as FsmEvents.ActEmits says |
| Controller.FsmController.RunOnce | firmware/lib/iec61851_fsm.cpp:51-248 | A run step of the object is a run step of the machine |
| Controller.FsmController.Perform | firmware/main.cpp:162-182 | Every command and step of the object is the machine's action |
| Controller.Drive | firmware/main.cpp:162-182 | Over any sequence of commands and steps the object goes through a run of the machine, ends in its last state, its events agree with its relay, and a closed relay means C or D with the RCD enabled |
| SamplerProtocol.TimerKeepsInv | firmware/bsp_drivers/sampler.cpp:108-151 | A timer interrupt keeps ownership, coherence and bookkeeping, whatever the task is doing |
| SamplerProtocol.SpiKeepsInv | firmware/bsp_drivers/sampler.cpp:12-28 | So does the completion of a transfer |
| SamplerProtocol.TaskKeepsInv | firmware/bsp_drivers/sampler.cpp:178-192 | So does each access of the task |
| SamplerProtocol.Exclusion | firmware/bsp_drivers/sampler.cpp:86-151 | In every interleaving exactly one of these holds: the buffer is free, the interrupt side owns it, the task owns it; no transfer is in flight while the task does |
| SamplerProtocol.OneInFlight | firmware/bsp_drivers/sampler.cpp:108-117 | In every interleaving at most one transfer is in flight, and those done are those begun, in order |
| SamplerProtocol.TimerBegins | firmware/bsp_drivers/sampler.cpp:108-151 | A timer event begins a transfer of its own phase, exactly if none is in flight and the acquisition under way has none of that phase, or a new one can take the buffer; nothing else begins one |
| SamplerProtocol.CompletionFills | firmware/bsp_drivers/sampler.cpp:12-23 | A completion fills the half of the transfer in flight with its acquisition and leaves the other half alone |
| SamplerProtocol.BegunByTimer | firmware/bsp_drivers/sampler.cpp:119-151 | Every transfer was begun by a timer event of its phase |
| SamplerProtocol.HalfIsItsPhase | firmware/bsp_drivers/sampler.cpp:128-146 | What either half holds was brought by the only transfer of that phase for that acquisition, begun by a timer event of that phase |
| SamplerProtocol.TwoTransfersEach | firmware/bsp_drivers/sampler.cpp:12-28 | Every completed acquisition took exactly two transfers, one of either phase |
| SamplerProtocol.CompletionWakes | firmware/bsp_drivers/sampler.cpp:25-28 | A completion completes the acquisition exactly if the other half already belongs to it, and then both halves do, the buffer is free and the task woken; otherwise neither semaphore moves |
| SamplerProtocol.ReadsLatestFrame | firmware/bsp_drivers/sampler.cpp:187-192 | Both halves that the task reads belong to one acquisition, the latest completed one |
| SamplerProtocol.ReadsNeverGoBack | firmware/bsp_drivers/sampler.cpp:178-192 | Frames read never go backwards, and reads never outnumber completed acquisitions |
| SamplerProtocol.ReadsIncrease | firmware/bsp_drivers/sampler.cpp:178-192 | As long as no acquisition completes between the task's wake-up and its taking of the buffer, every read is of a newer frame than the one before |
| SamplerProtocol.PendingWakeRepeats | firmware/bsp_drivers/sampler.cpp:178-192 | Conversely, every run that reaches a state in which one has completed there can go on so that a frame is read twice; the latest one if the buffer is free |
| SamplerProtocol.OvertakenFrameRepeats | firmware/bsp_drivers/sampler.cpp:178-192 | The very frame whose completion overtakes the task can be read twice |
| SamplerProtocol.FramesMayRepeat | firmware/bsp_drivers/sampler.cpp:178-192 | There is a run of this kind |
| RingBuffer.WindowStep | firmware/bsp_drivers/sampler.cpp:30-42 | A new sample pushes the oldest out of the last ten, zeros before the first |
| RingBuffer.RotatedStep | firmware/bsp_drivers/sampler.cpp:35-42 | Overwriting the oldest sample and moving on keeps the last ten samples, in rotated order |
| RingBuffer.RotationIrrelevant | firmware/bsp_drivers/sampler.cpp:45-59 | Neither the sum nor the number of misfits depends on where the ring starts |
| RingBuffer.NearOrMisfit | firmware/bsp_drivers/sampler.cpp:52-59 | Every sample is a misfit or within the deviation of the average |
| RingBuffer.AveragingRingBuffer.AddValue | firmware/bsp_drivers/sampler.cpp:34-60 | The ring holds the last ten samples, zeros before the first; the average is the floor of their mean, and the misfits are counted exactly |
| RingBuffer.AveragingRingBuffer.ComputeAverage | firmware/bsp_drivers/sampler.cpp:45-49 | The first loop computes the floor of the mean |
| RingBuffer.AveragingRingBuffer.CountMisfits | firmware/bsp_drivers/sampler.cpp:52-59 | The second loop counts the samples that stray from the average |
| Sampler.SampleExchange.TriggerAdcReadout | firmware/bsp_drivers/sampler.cpp:108-151 | The timer handler follows the protocol; a transfer in flight is left alone, and one that begins is of the event's phase |
| Sampler.SampleExchange.AdcSpiCallback | firmware/bsp_drivers/sampler.cpp:12-28 | The completion callback follows the protocol, releasing and waking exactly when both phases are done |
| Sampler.SampleExchange.CompleteTransfer | firmware/bsp_drivers/sampler.cpp:12-28 | A burst lands in the half of the phase being sampled and is recorded for its acquisition |
| Sampler.SampleExchange.DecodeLow | firmware/bsp_drivers/sampler.cpp:153-190 | What the task holds then are the second and third sample of both bursts of the latest completed acquisition |
| Sampler.SampleExchange.GiveSampleBuf | firmware/bsp_drivers/sampler.cpp:192 | Giving the buffer back follows the protocol |
| Sampler.SampleExchange.HandleInterrupts | firmware/bsp_drivers/sampler.cpp:12-151 | Any interrupts leave alone what the task has read and what completed acquisitions delivered |
| Sampler.SampleExchange.ReadFrame | firmware/bsp_drivers/sampler.cpp:181-192 | With any interrupts before each access, the loop reads samples of one acquisition and records it as read, or stops where it has to wait |
| Sampler.SignalAverager.UpdateSignal | firmware/bsp_drivers/sampler.cpp:198-207 | The signal is valid if and only if each history has ten samples of which the last ten have nine within 400 counts of their rounded mean, and then carries these means |
| Sampler.SignalAverager.PublishSample | firmware/bsp_drivers/sampler.cpp:194-207 | The new samples enter their averages, and the signal published is valid exactly as the histories including them are trustworthy, with their means |
| Sampler.LoopOnce | firmware/bsp_drivers/sampler.cpp:178-209 | After every iteration, with any interrupts in between, the averaged histories are sample by sample the frames that the task has read, which are coherent and never go backwards, and the published signal is what these histories report |
| Sampler.StableIsTrustworthy | firmware/bsp_drivers/sampler.hpp:20-22 | A history passes the tests of misfits and fill level if and only if it has ten samples and nine of the last ten are within 400 counts of their rounded mean, which is the average |
| PilotVoltage.WindowsInCounts | firmware/bsp_drivers/sampler.hpp:25-36 | The windows around 12, 9, 6, 3, -12 and 0 V are exactly the counts 3716 to 4075, 3224 to 3584, 2733 to 3092, 2242 to 2601, 0 to 145 and 1751 to 2110 |
| PilotVoltage.SeesInCounts | firmware/bsp_drivers/sampler.cpp:159-176 | From samples to states: what a step sees in the signal published for any two histories is decided by the means of their last ten samples, if these are trustworthy, in counts |
| PilotVoltage.ClosesOnSamples | firmware/bsp_drivers/sampler.cpp:159-210 | From samples to the relay: an open relay closes exactly where both histories are trustworthy, the low mean is at most 145 counts, the high one within 2733 to 3092, or 2242 to 2601 with ventilation, with PWM and permission live, enabled, if it obeys |

## Left out

- Merge.RoundTrip: encodings of 2^32 bytes or more, whose lengths exceed the 32-bit length prefix, are not covered; `size_t` is otherwise unbounded in the model.
- FieldIter.FieldIter.Find: field lists that address more than 16 bits of descriptor words, and extension ranges, are not covered.
- Sampler.SampleExchange.AdcSpiCallback: the sample words of one half are read and written in one step each.
- Nanopb's pointer fields, callbacks, extensions, strings and bytes, fixed-count arrays, proto2 optional fields and default values: compiled out or unused by the two messages.
- Required fields as part of the decoder: the bitmap is modelled by itself, since neither message has such fields.
- The contents of the destination struct after a failed decode, and error message texts.
- Memory layout: a message is a value with one slot for each field, and a union member is a slot that is set exactly if the `which_` field has its tag. Enum members are taken to be four bytes wide.
- Float rounding: floats on the wire are 32-bit patterns; pilot voltages, the conversion of counts to them, and duty cycles are reals.
- The RCD interrupt that opens the relay in an emergency outside the state machine, and what the drivers do with resets of the RCD and of the emergency switch.
- The order of events against hardware accesses within one step, and return values of power_on and power_off that no caller uses.
- Connector lock behaviour beyond what the lock was last told, and the overcurrent countdown, which nothing reads.
- Interrupt nesting: each handler is one step, and `MCSPI_transfer` succeeds.
- RPMsg transport, FreeRTOS internals, register writes, pin muxing and PWM match arithmetic.
- The EVerest module around the messages, and the tables that name events and states.
