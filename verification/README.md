# Model of nanopb and of the BoringSSL handshake and record transports

The application links two C and C++ libraries that do its real work: nanopb, which encodes and decodes protocol buffers
from field descriptors, and BoringSSL, which carries TLS and DTLS. This project models their protocol logic in Dafny and
proves it. The functions of a library that change state step by step are methods of classes with the same fields and the
same branches; each is proved against a specification function, and the properties are proved of those functions and of
whole runs.

- **nanopb** (`Pb*.dfy`). A descriptor is a sequence of fields with the numbers of `pb_field_t`; a message is a sequence of
  slots, one per field, where the members of a oneof share the slot of the first. `PbEncodeSpec` and `PbDecodeSpec` give
  the bytes of a message and the meaning of bytes; `PbOutput`, `PbInput`, `PbIterator`, `PbRequired` and `PbDecode` are the
  streams, the field iterator, the required-field bitmap and the encoder and decoder loops. On top stand the round trip
  (`PbRoundTrip`, `PbContent`, `PbProto3`, `PbEndToEnd`), the agreement of the sizing and the writing pass (`PbOutput`),
  forward compatibility (`PbForward`), the bytes of the format (`PbFormat`), and what the decoder makes of any input: the
  meaning of streams (`PbMerge`), refusals (`PbRefuse`), and that nothing is stored outside its member (`PbSound`). Words
  are natural numbers below a power of two, and their bits are defined in `Bits`.
- **DTLS transport** (`Dtls*.dfy`). The 64-bit replay window, the fragment bitmask and the ring of seven partial messages,
  the sender that cuts a flight into packets of at most the MTU, and the composition of sender, lossy network and receiver;
  `DtlsComplete` shows that what arrived in full is delivered, and `DtlsKeys` which key seals what.
- **Handshake below TLS 1.3** (`TlsHandshake`, `TlsAgreement`, `TlsProgress`, `TlsPeer`, `TlsHandshakeCode`, `TlsDriver`).
  The client and server state machines and their loops, with message bodies and cryptography abstract. A Finished message
  carries the transcript that it was computed over. Parameters stand for what the hellos settle; outcomes stand for local operations, which may
  work, ask to be retried, or fail. The product of both machines over FIFO channels is proved to stay on one common message
  sequence and to finish, and the code of both loops is proved to move as the product does. `TlsPeer` holds for either side
  alone, with any peer.
- **TLS write path** (`TlsBuffer`, `TlsWrite`). The write buffer with its 16-bit offsets, the pending flight, and
  application writes that are retried over a transport that accepts any part of what it is offered, or fails.
- **Small cores** (`Refcount`, `Premaster`, `CipherChoice`). The compare-and-swap reference count against an atomic counter,
  the branch-free selection of the RSA premaster secret against a branching specification, and the choice of the cipher.

Results that differ from what one would expect of the code:

- A string that fills its array is encoded but refused by the decoder (`PbContent.FullStringRefused`), and a zero that
  is omitted comes back as the default of its field, so that content survives exactly when such defaults are zero
  (`PbContent.ContentRoundTrip`, `PbContent.NonzeroDefaultLost`).
- A DTLS fragment exactly seven ahead of the read number takes the error path, because one check uses `>` and the other `>=`
  (`DtlsReceiver.WindowVerdicts`).
- A sealing failure in the middle of a DTLS packet drops the pieces sealed before it in that packet, although the position
  has moved past them (`DtlsSender.SealFailureSkips`). For ready messages this happens exactly when the record numbers run
  out behind the first record of a packet (`DtlsSender.SealsIffEnough`); under a guard that can be checked before the call
  no flight loses anything (`DtlsSender.FlightSender.SendFlight`, `DtlsSender.FlightSender.Run`).
- A write buffer whose offset plus capacity exceeds 65536 can lose its place: `TlsBuffer.ConsumeExact` gives the exact
  condition on an offset, and `TlsBuffer.CapacityExact` the one on a capacity. The write path keeps every byte unless a
  record needs one of the capacities 65530 to 65535 (`TlsWrite.WriteSide.Run`), and each of these six loses bytes
  (`TlsWrite.CapacityExact`).
- An application write that is repeated with a length below `wnum` forgets how much was written and writes it again
  (`TlsWrite.ForgottenWrite`, `TlsWrite.WrittenTwice`). A write under way is kept iff no fewer bytes are presented (`TlsWrite.WriteSide.WriteAppData`),
  and then any data that agrees with what was sealed is written exactly once (`TlsWrite.WriteSide.RunRetrying`).

`dafny verify dfyconfig.toml` checks the project.

## Model

| member | source | states |
|---|---|---|
| PbWire.Varint64RoundTrip | ios/Pods/nanopb/pb_encode.c:574-594 | For every 64-bit value and every tail, the 64-bit decoder reads the encoding back and leaves exactly the tail. |
| PbWire.VarintMinimal | ios/Pods/nanopb/pb_decode.c:250-270 | An encoding has 1 to 10 bytes, and no byte string that decodes to the same value uses fewer. |
| PbWire.Varint32RoundTrip | ios/Pods/nanopb/pb_decode.c:182-248 | The 32-bit decoder reads every encoded 32-bit value back and leaves the tail. |
| PbWire.Varint32SignExtended | ios/Pods/nanopb/pb_decode.c:182-248 | It also accepts the ten-byte sign-extended form of every negative int32 and gives its low 32 bits. |
| PbScalars.ZigZagRoundTrip | ios/Pods/nanopb/pb_encode.c:596-605 | The zigzag map of the svarint encoder is the documented one, and the decoder inverts it on all int64. |
| PbScalars.UnZigZagRoundTrip | ios/Pods/nanopb/pb_decode.c:1240-1252 | The svarint decoder yields an int64 for every 64-bit word and the encoder inverts it. |
| PbScalars.SignedRoundTrip | ios/Pods/nanopb/pb_decode.c:1289-1324 | A signed integer of 1, 2, 4 or 8 bytes survives the widening to 64 bits and the narrowing of the decoder. |
| PbScalars.FixedRoundTrip | ios/Pods/nanopb/pb_decode.c:1254-1287 | Fixed 32- and 64-bit values are read back from their little-endian bytes, leaving the tail. |
| PbScalars.PrefixedRoundTrip | ios/Pods/nanopb/pb_decode.c:367-380 | A length-prefixed string opens as a window of exactly its bytes, for every length below 2^32. |
| PbScalars.TagRoundTrip | ios/Pods/nanopb/pb_decode.c:293-314 | Wire type and field number are read back from an encoded tag, leaving the tail. |
| PbDescriptor.FindUnique | ios/Pods/nanopb/pb_common.c:78-95 | In a well-formed descriptor the tag of a field finds that field and no other. |
| PbDescriptor.DefaultMsgOk | ios/Pods/nanopb/pb_decode.c:884-899 | The defaults of a well-formed descriptor are a well-formed message, at every nesting level. |
| PbRoundTrip.LoopDecodes | ios/Pods/nanopb/pb_decode.c:919-997 | From any field on, the decoding loop run on the encoding of the remaining fields ends at the end of input with every present field stored and every absent one untouched, or stops at the first string that fills its array. |
| PbRoundTrip.MsgDecodes | ios/Pods/nanopb/pb_encode.c:494-516 | For every well-formed descriptor tree and message whose length prefixes are below 2^32, decoding the encoder's output consumes every byte and gives the normal form of the message if no present string fills its array, and reports string overflow otherwise. |
| PbRoundTrip.ShortMsg | ios/Pods/nanopb/pb_encode.c:682-730 | In an encoding of fewer than 2^32 bytes every length prefix, at any depth, is below 2^32. |
| PbEndToEnd.EncodeThenDecode | ios/Pods/nanopb/pb_decode.c:1051-1063 | The imperative encoder followed by the imperative decoder: encoding into a buffer succeeds iff the message encodes and fits; if its length prefixes are below 2^32, decoding then gives the normal form with no byte left, iff no present string fills its array. |
| PbContent.ContentRoundTrip | ios/Pods/nanopb/pb_encode.c:215-303 | With length prefixes below 2^32, decoding succeeds iff no present string fills its array, and the decoded message has the content of the original iff no field omitted as zero has a nonzero default, at every nesting level. |
| PbContent.NormMsgOk | ios/Pods/nanopb/pb_encode.c:215-303 | The normal form of a message is well-formed, and has the same content iff the message is safe in that sense. |
| PbContent.ZeroDefaultsSafe | ios/Pods/nanopb/pb_encode.c:215-303 | With zero defaults throughout, as in proto3, every message is safe, so that the round trip gives every content back. |
| PbContent.FullStringRefused | ios/Pods/nanopb/pb_decode.c:1428-1461 | A concrete string that fills its array is encoded and then refused by the decoder, which needs room for the terminator. |
| PbContent.NonzeroDefaultLost | ios/Pods/nanopb/pb_encode.c:215-303 | A concrete zero in a field without a has flag and with default 7 is omitted and comes back as 7. |
| PbProto3.NothingLost | ios/Pods/nanopb/pb_encode.c:215-303 | With no default values in the descriptors, at any level, every message that is encoded, whose length prefixes are below 2^32 and whose strings leave room for their terminators, comes back with the same content and no byte left. |
| PbProto3.OmittedIff | ios/Pods/nanopb/pb_encode.c:283-303 | An optional field without a has flag writes nothing iff its integer is 0, its string or byte array is empty, or its submessage has nothing set, at every level. |
| PbProto3.EncodesIff | ios/Pods/nanopb/pb_encode.c:126-213 | The encoder succeeds iff in whatever is written every array is within its bound and every byte array leaves room for its count of four bytes, at every level. |
| PbProto3.NothingSet | ios/Pods/nanopb/pb_decode.c:812-899 | An empty input gives a message in which no has flag and no oneof is set, no array has an entry, and all bytes are zero, at every level. |
| PbFormat.VarintDigits | ios/Pods/nanopb/pb_encode.c:574-594 | Byte i of a varint holds base-128 digit i of the value, and has its top bit set iff another follows. |
| PbFormat.FixedDigits | ios/Pods/nanopb/pb_encode.c:607-635 | Byte i of a fixed-width value is its base-256 digit i. |
| PbFormat.RecordFormat | ios/Pods/nanopb/pb_encode.c:635-680 | A record is the varint of eight times the field number plus the format's number for the payload, and the payload: two's complement in 64 bits, zigzag, little-endian, or length and bytes. |
| PbFormat.ArrayFormat | ios/Pods/nanopb/pb_encode.c:126-213 | An array of scalars is one length-delimited record, and any other array one record for each entry. |
| PbSound.DecodeInside | ios/Pods/nanopb/pb_decode.c:401-470 | Whatever bytes arrive: if decoding succeeds, at every level each integer is in the range of its member, each byte array with its count and each string with its terminator fits its member, each fixed-length value has its length, no array exceeds its bound, and the message is well-formed. |
| PbMerge.DecodeMerges | ios/Pods/nanopb/pb_decode.c:901-1049 | For every stream of records, decoding equals a fold over values: scalars overwrite, packed and unpacked entries are appended up to the bound, submessages merge into the one already there, except in arrays and unions, which start anew, unknown records change nothing, and in the end none of the first 64 required fields may be missing; the error is the first one in order. |
| PbRefuse.UnsignedExact | ios/Pods/nanopb/pb_decode.c:1326-1348 | Every 64-bit word in an unsigned field is stored as it is if its member can hold it, and refused otherwise. |
| PbRefuse.ZigZagExact | ios/Pods/nanopb/pb_decode.c:1350-1372 | Every 64-bit word in a zigzag field gives its integer if its member can hold it, and is refused otherwise. |
| PbRefuse.SignedExact | ios/Pods/nanopb/pb_decode.c:1289-1324 | Every 64-bit word in a plain signed field is taken as two's complement of 64 bits, or of its low 32 bits for smaller members, and is refused if the member cannot hold that. |
| PbRefuse.BytesExact | ios/Pods/nanopb/pb_decode.c:1391-1500 | Every byte string is stored whole if its member has room for it and its count or terminator, and refused with the error of its kind otherwise. |
| PbRefuse.CStringExact | ios/Pods/nanopb/pb_decode.c:1428-1461 | The text of a decoded string ends before its first zero byte. |
| PbRefuse.TruncatedRefused | ios/Pods/nanopb/pb_decode.c:367-380 | A length that promises more bytes than are left is refused. |
| PbRefuse.ShortFixedRefused | ios/Pods/nanopb/pb_decode.c:1254-1287 | A fixed-width value cut short is refused as the end of the stream. |
| PbRefuse.RefusalEnds | ios/Pods/nanopb/pb_decode.c:919-962 | What a field decoder refuses ends the decoding of the message with its error. |
| PbRefuse.ZeroEnds | ios/Pods/nanopb/pb_decode.c:293-314 | A zero byte in the place of a key ends the message, and what follows is left unread. |
| PbRefuse.GroupRefused | ios/Pods/nanopb/pb_decode.c:316-327 | An unknown field whose wire type is a group or undefined ends decoding with an error. |
| PbForward.UnknownFieldsIgnored | ios/Pods/nanopb/pb_decode.c:919-962 | Records of any wire type with tags absent from the descriptor, between records and inside submessages at any depth, do not change what the decoding loop does with the rest. |
| PbForward.MessageSpelled | ios/Pods/nanopb/pb_encode.c:494-516 | The encoder's output is a sequence of well-formed records, one for each present value, nested for submessages. |
| PbForward.ForwardCompatible | ios/Pods/nanopb/pb_decode.c:273-395 | With length prefixes below 2^32, decoding an encoded message with unknown records inserted anywhere, at any nesting level, gives the same result as decoding the encoded message. |
| PbIterator.UnionShared | ios/Pods/nanopb/pb_common.c:44-50 | All members of a oneof are at the same offset, and so is their tag when all declare the same one. |
| PbIterator.FieldsDisjoint | ios/Pods/nanopb/pb_common.c:41-73 | Fields that are not in the same union occupy disjoint parts of the struct. |
| PbIterator.LayoutFound | ios/Pods/nanopb/pb_common.c:20-76 | In a descriptor written from any layout of a struct, as offsets from the end of the field before, the iterator finds every field at its place. |
| PbIterator.FieldIter.Begin | ios/Pods/nanopb/pb_common.c:8-18 | The iterator points at the first field, and reports whether there is one. |
| PbIterator.FieldIter.Next | ios/Pods/nanopb/pb_common.c:20-76 | Position, data and size offsets and the required-field index move to those of the next field, or wrap around to those of the first; they depend on the position alone. |
| PbIterator.FieldIter.Find | ios/Pods/nanopb/pb_common.c:78-95 | The search from the current position finds the cyclically first field with the tag, or restores the position; it fails iff no field has the tag, and finds the terminator of an empty descriptor for tag 0. |
| PbIterator.MatchUnique | ios/Pods/nanopb/pb_common.c:78-95 | With distinct tags the cyclic search is independent of where it starts. |
| PbOutput.OStream.Write | ios/Pods/nanopb/pb_encode.c:101-119 | Writes all of the data and advances, or writes nothing and reports a full stream; memory outside the room of the stream is untouched. |
| PbOutput.VarintGroups | ios/Pods/nanopb/pb_encode.c:574-594 | The loop fills its ten-byte buffer with the minimal encoding and never overruns it. |
| PbOutput.OStream.EncodeVarint | ios/Pods/nanopb/pb_encode.c:574-594 | Emits the varint encoding of any 64-bit value. |
| PbOutput.OStream.EncodeTag | ios/Pods/nanopb/pb_encode.c:635-639 | Emits the tag encoding. |
| PbOutput.OStream.EncodeString | ios/Pods/nanopb/pb_encode.c:674-680 | Emits the length and the bytes. |
| PbOutput.OStream.EncodeScalar | ios/Pods/nanopb/pb_encode.c:734-870 | Every scalar encoder emits the specified bytes, or fails with the specified error. |
| PbOutput.OStream.EncodeMeasured | ios/Pods/nanopb/pb_encode.c:708-729 | The second pass through a substream of exactly the computed size writes exactly that size, so that the size-changed check cannot fail. |
| PbOutput.OStream.EncodeSubmessage | ios/Pods/nanopb/pb_encode.c:682-730 | The two-pass encoder emits the length prefix and the encoding of the submessage. |
| PbOutput.OStream.EncodePackedArray | ios/Pods/nanopb/pb_encode.c:139-181 | The packed form emits tag, length and the concatenated items, with the length computed in closed form for fixed types and by a sizing pass for varints. |
| PbOutput.OStream.EncodeUnpacked | ios/Pods/nanopb/pb_encode.c:182-208 | The unpacked form emits one tagged record per item. |
| PbOutput.OStream.EncodeField | ios/Pods/nanopb/pb_encode.c:307-394 | Dispatch on the kind of field: required, optional with or without a has flag, repeated, oneof by its tag. |
| PbOutput.OStream.Encode | ios/Pods/nanopb/pb_encode.c:494-516 | The imperative encoder, on sizing and writing streams, emits exactly the specified encoding of the message. |
| PbOutput.CheckDefaults | ios/Pods/nanopb/pb_encode.c:261-280 | The recursive default check over a submessage agrees with the specification of an all-zero message. |
| PbOutput.CheckDefault | ios/Pods/nanopb/pb_encode.c:215-303 | The default check of a field agrees with the specification of a zero field. |
| PbOutput.GetEncodedSize | ios/Pods/nanopb/pb_encode.c:533-542 | The sizing pass succeeds iff the message encodes, and gives the length of the encoding. |
| PbOutput.SizingMatchesWriting | ios/Pods/nanopb/pb_encode.c:533-542 | Writing succeeds iff the sizing pass does and the size fits; it then writes exactly that many bytes, never beyond the room of the stream, and never reports a changed submessage size. |
| PbOutput.MsgSized | ios/Pods/nanopb/pb_encode.c:682-730 | Every message whose encoding has fewer than 2^64 bytes satisfies the size condition of the encoder methods. |
| PbInput.IStream.Read | ios/Pods/nanopb/pb_decode.c:100-134 | Gives the next bytes and advances, or fails without moving when fewer are left. |
| PbInput.IStream.Discard | ios/Pods/nanopb/pb_decode.c:100-134 | Reading without a buffer advances by the same amount. |
| PbInput.IStream.DecodeVarint32Eof | ios/Pods/nanopb/pb_decode.c:182-242 | Agrees with the specified 32-bit reader, with its overflow rules; eof is reported iff no byte is left. |
| PbInput.IStream.DecodeVarint | ios/Pods/nanopb/pb_decode.c:250-270 | Agrees with the specified 64-bit reader, and on failure leaves the stream behind the bytes it read. |
| PbInput.IStream.SkipField | ios/Pods/nanopb/pb_decode.c:316-327 | Consumes exactly one value of the wire type, or fails as specified. |
| PbInput.IStream.SkipString | ios/Pods/nanopb/pb_decode.c:284-291 | Consumes the length prefix and exactly the bytes it announces. |
| PbInput.IStream.SkipVarintBytes | ios/Pods/nanopb/pb_decode.c:273-282 | Consumes exactly one varint. |
| PbInput.IStream.DecodeTag | ios/Pods/nanopb/pb_decode.c:293-314 | Gives wire type and tag, an end of input for no byte or a zero tag, or the specified error. |
| PbInput.IStream.MakeSubstream | ios/Pods/nanopb/pb_decode.c:367-380 | The substream is a window of exactly the announced bytes, and the parent is left with the rest. |
| PbInput.IStream.CloseSubstream | ios/Pods/nanopb/pb_decode.c:382-395 | The parent goes on where the substream ended, with its error. |
| PbInput.IStream.DecodeInteger | ios/Pods/nanopb/pb_decode.c:1289-1372 | Varint, uvarint and svarint fields are decoded and range-checked by their data size as specified. |
| PbInput.IStream.DecodeFixed | ios/Pods/nanopb/pb_decode.c:1374-1389 | Fixed fields are decoded as specified. |
| PbInput.IStream.DecodeString | ios/Pods/nanopb/pb_decode.c:1391-1461 | Bytes and strings are decoded with the size checks of the code; a string leaves room for its terminator. |
| PbInput.CastSignedExact | ios/Pods/nanopb/pb_decode.c:1289-1324 | Narrowing and comparing detects exactly the values out of the range of the field's size. |
| PbRequired.SetMark | ios/Pods/nanopb/pb_decode.c:988-993 | Setting the bit of a decoded required field keeps the two words an exact picture of the required fields seen. |
| PbRequired.SkipMark | ios/Pods/nanopb/pb_decode.c:988-993 | Fields beyond the bitmap and fields that are not required leave the picture exact. |
| PbRequired.MissesIndex | ios/Pods/nanopb/pb_decode.c:1006-1046 | A required field among the first 64 is missing iff some index below both bounds was never seen. |
| PbRequired.CountRequired | ios/Pods/nanopb/pb_decode.c:1012-1022 | Walking the iterator to the end counts the required fields. |
| PbRequired.CheckWords | ios/Pods/nanopb/pb_decode.c:1024-1045 | The word-wise comparison reports a missing field iff one of the first 64 required fields was never decoded in this call. |
| PbDecode.SetToDefaults | ios/Pods/nanopb/pb_decode.c:812-899 | The destination holds the defaults of the descriptor. |
| PbDecode.DecodeSubmessage | ios/Pods/nanopb/pb_decode.c:1463-1485 | Window, defaults for repeated submessages, recursion and closing agree with the specification, also when they fail. |
| PbDecode.DecodeItems | ios/Pods/nanopb/pb_decode.c:430-441 | The packed loop stores items in order until its window or the array is exhausted, and fails as specified. |
| PbDecode.DecodePackedField | ios/Pods/nanopb/pb_decode.c:418-446 | A packed field appends the items of its window to the array, or fails as specified. |
| PbDecode.DecodeField | ios/Pods/nanopb/pb_decode.c:401-480 | Each kind of field changes only its own slot, to the specified value. |
| PbDecode.DecodeRecord | ios/Pods/nanopb/pb_decode.c:933-997 | One turn after a tag: skip an unknown field, refuse a bad terminator, or decode a known one and mark it. |
| PbDecode.DecodeNoinit | ios/Pods/nanopb/pb_decode.c:901-1049 | The imperative decoder agrees with the specification on result, consumption and error, including the missing-field report. |
| PbDecode.Decode | ios/Pods/nanopb/pb_decode.c:1051-1063 | Defaults, then decoding, agree with the specification. |
| DtlsReplay.DiscardExact | ios/Pods/BoringSSL-GRPC/ssl/dtls_record.cc:140-153 | In every state that tracks a history, a number is discarded iff it was recorded or is at least 64 below the maximum. |
| DtlsReplay.RecordTracks | ios/Pods/BoringSSL-GRPC/ssl/dtls_record.cc:155-175 | Recording a number that is not discarded keeps the window a picture of the history with it. |
| DtlsReplay.Bitmap.ShouldDiscard | ios/Pods/BoringSSL-GRPC/ssl/dtls_record.cc:140-153 | The code's test agrees with the window's. |
| DtlsReplay.Bitmap.RecordSeq | ios/Pods/BoringSSL-GRPC/ssl/dtls_record.cc:155-175 | The code's shift and set agree with the window's, including shifts of 64 and more. |
| DtlsReplay.ToU64Be | ios/Pods/BoringSSL-GRPC/ssl/dtls_record.cc:128-136 | The loop computes the big-endian value of the eight bytes. |
| DtlsReplay.RunOk | ios/Pods/BoringSSL-GRPC/ssl/dtls_record.cc:225-259 | Over every run of arriving records and epoch switches, the window tracks exactly the records accepted in the current epoch. |
| DtlsReplay.AcceptedIffFresh | ios/Pods/BoringSSL-GRPC/ssl/dtls_record.cc:225-259 | After every run, a record goes through iff it is of the current epoch, which is the number of switches modulo 65536, authentic, not accepted since the switch and in the window (section 4.1.2.6 of RFC 6347); then it is accepted unless it is longer than 16384. Nothing else changes the reader. |
| DtlsReplay.NeverTwice | ios/Pods/BoringSSL-GRPC/ssl/dtls_record.cc:225-259 | Over every run with fewer than 65536 epochs, no sequence number is accepted twice. |
| DtlsReplay.RecordReader.OpenRecord | ios/Pods/BoringSSL-GRPC/ssl/dtls_record.cc:177-261 | The acceptance path agrees with the judgement and changes the window only on acceptance. |
| DtlsReplay.RecordReader.SetReadEpoch | ios/Pods/BoringSSL-GRPC/ssl/dtls_method.cc:81-95 | The epoch switch empties the window. |
| DtlsFragment.ParseBuilt | ios/Pods/BoringSSL-GRPC/ssl/d1_both.cc:459-473 | A built fragment followed by anything parses back to itself and leaves the rest. |
| DtlsFragment.BitRangeBits | ios/Pods/BoringSSL-GRPC/ssl/d1_both.cc:203-207 | The mask of a range has exactly the bits of the range. |
| DtlsFragment.SetRange | ios/Pods/BoringSSL-GRPC/ssl/d1_both.cc:226-236 | The three loops set exactly the bits of the range, byte by byte. |
| DtlsFragment.MarkCovers | ios/Pods/BoringSSL-GRPC/ssl/d1_both.cc:226-236 | Marking keeps the bitmask the indicator of the union of all ranges, with no bit beyond the message. |
| DtlsFragment.AllMarkedIffCovered | ios/Pods/BoringSSL-GRPC/ssl/d1_both.cc:238-250 | The final test succeeds iff the ranges cover the message. |
| DtlsFragment.HmFragment.Mark | ios/Pods/BoringSSL-GRPC/ssl/d1_both.cc:211-251 | The set of bytes received grows by the range, and the bitmask is dropped iff the message is complete. |
| DtlsFragment.HmFragment.Add | ios/Pods/BoringSSL-GRPC/ssl/d1_both.cc:387-402 | Copying and marking a fragment agree with the abstract partial message. |
| DtlsReceiver.AcceptRing | ios/Pods/BoringSSL-GRPC/ssl/d1_both.cc:265-295 | Every occupied slot i holds a number in the window of seven with remainder i; in particular a window fragment meets its own message. |
| DtlsReceiver.AdvanceRing | ios/Pods/BoringSSL-GRPC/ssl/d1_both.cc:426-438 | Handing out a message keeps this. |
| DtlsReceiver.WindowVerdicts | ios/Pods/BoringSSL-GRPC/ssl/d1_both.cc:380-391 | What becomes of every fragment, with the exact condition of each error: in particular one exactly seven ahead is refused with an alert, while every other one outside the window is ignored, because the two bounds checks differ. |
| DtlsReceiver.AcceptFaithful | ios/Pods/BoringSSL-GRPC/ssl/d1_both.cc:373-402 | A fragment that is a slice of a sent message keeps every slot a part of its message, and is never refused as a mismatch. |
| DtlsReceiver.Reassembly | ios/Pods/BoringSSL-GRPC/ssl/d1_both.cc:211-251 | From any fragments of one message, in any order and overlap: the bytes received are their union, the message is complete iff they cover it, and its data is then the message. |
| DtlsReceiver.DeliveredInOrder | ios/Pods/BoringSSL-GRPC/ssl/d1_both.cc:408-438 | From any faithful state and over any run, the messages handed out continue the sent sequence at the read number. |
| DtlsReceiver.DeliverySafety | ios/Pods/BoringSSL-GRPC/ssl/d1_both.cc:297-438 | Over every run of records with slices of the sent messages, lost, duplicated and reordered in any way, the messages handed out are a prefix of those sent, each once, byte for byte. |
| DtlsComplete.ProcessIsFold | ios/Pods/BoringSSL-GRPC/ssl/d1_both.cc:351-438 | A record that holds any fragments is read to its end: each is accepted in turn, up to the first alert. |
| DtlsComplete.ProcessJunk | ios/Pods/BoringSSL-GRPC/ssl/d1_both.cc:351-360 | Bytes behind the last fragment that are no fragment are a decode error. |
| DtlsComplete.CoverageDelivers | ios/Pods/BoringSSL-GRPC/ssl/d1_both.cc:297-438 | When slices of the sent messages arrive that are within the length limit, not exactly seven ahead, and in the encrypted epoch of the next message, in any records, order and number: the next message can be taken iff some fragment of it is in and all its positions are, and then it is the message sent. |
| DtlsComplete.FlightDelivered | ios/Pods/BoringSSL-GRPC/ssl/d1_both.cc:297-438 | Once the fragments of up to seven messages are in, in any records, order and number, all of them can be taken one after the other, as they were sent. |
| DtlsReceiver.Receiver.Insert | ios/Pods/BoringSSL-GRPC/ssl/d1_both.cc:288-294 | A free slot gets a new, empty message, apart from all other slots. |
| DtlsReceiver.Receiver.OpenFragment | ios/Pods/BoringSSL-GRPC/ssl/d1_both.cc:373-402 | The code on its ring of heap objects agrees with the abstract ring on one fragment. |
| DtlsReceiver.Receiver.OpenHandshake | ios/Pods/BoringSSL-GRPC/ssl/d1_both.cc:297-406 | It agrees with the abstract ring on a whole record, with the alert it sends. |
| DtlsReceiver.Receiver.GetMessage | ios/Pods/BoringSSL-GRPC/ssl/d1_both.cc:408-424 | A message is handed out iff the current slot is complete, with its type, body and raw form. |
| DtlsReceiver.Receiver.NextMessage | ios/Pods/BoringSSL-GRPC/ssl/d1_both.cc:426-438 | The current slot is released and the read number advances. |
| DtlsSender.PacketFits | ios/Pods/BoringSSL-GRPC/ssl/d1_both.cc:739-780 | Every packet has at most the given length. |
| DtlsSender.PacketProgress | ios/Pods/BoringSSL-GRPC/ssl/d1_both.cc:739-780 | A nonempty packet advances the position strictly; an empty one leaves it, and without a sealing failure only because nothing fits. |
| DtlsSender.TooSmall | ios/Pods/BoringSSL-GRPC/ssl/d1_both.cc:644-737 | No progress means that the packet is too small for one byte of the message under its cipher. |
| DtlsSender.PacketFull | ios/Pods/BoringSSL-GRPC/ssl/d1_both.cc:737-779 | A packet ends only at the end of the flight, behind a message that it holds a part of, or where the next message finds no room. |
| DtlsSender.PacketWalks | ios/Pods/BoringSSL-GRPC/ssl/d1_both.cc:644-780 | The pieces of a packet walk the flight from the old position to the new one without gap or overlap, also when sealing fails. |
| DtlsSender.WalkGathers | ios/Pods/BoringSSL-GRPC/ssl/d1_both.cc:644-780 | The pieces of a walk carry, for every message, exactly the bytes between the two positions. |
| DtlsSender.TilesWhole | ios/Pods/BoringSSL-GRPC/ssl/d1_both.cc:644-780 | A walk past a message carries its whole body, in order. |
| DtlsKeys.CcsSealed | ios/Pods/BoringSSL-GRPC/ssl/d1_both.cc:644-687 | A ChangeCipherSpec is sealed whole under the key of its own epoch, the current or the previous one, iff there is room and a record number is left; under no other key. |
| DtlsKeys.HandshakeSealed | ios/Pods/BoringSSL-GRPC/ssl/d1_both.cc:644-732 | A handshake message is sealed under the key of its own epoch from the offset on, as much as the packet has room for, with a header that says which part it is. |
| DtlsSender.SealFailureSkips | ios/Pods/BoringSSL-GRPC/ssl/d1_both.cc:744-752 | For every handshake message followed by a ChangeCipherSpec in one packet, both of the epoch before: if the numbers end with the first record, sealing fails and the position has passed the whole message, although nothing was written. |
| DtlsSender.SealsIffEnough | ios/Pods/BoringSSL-GRPC/ssl/d1_both.cc:739-780 | For a flight of ready messages and sound ciphers, sealing a packet fails exactly when the records it would have under fresh numbers outnumber the numbers left under one of the two keys, and then loses records exactly when its first record still has a number. |
| DtlsSender.UnreadyFails | ios/Pods/BoringSSL-GRPC/ssl/d1_both.cc:650-693 | A message of another epoch, one that is not a whole fragment, or an offset beyond it fails to be sealed, whatever the room and the numbers. |
| DtlsSender.PacketSpends | ios/Pods/BoringSSL-GRPC/ssl/d1_both.cc:739-780 | If the messages left are ready and the numbers left under both keys cover the bytes left, a packet is sealed and the guard holds again behind it. |
| DtlsSender.LostIsGap | ios/Pods/BoringSSL-GRPC/ssl/d1_both.cc:739-780 | Pieces that the position has passed and that were not sent leave a gap: what was sent does not end at the position. |
| DtlsSender.FlightSender.AddOutgoing | ios/Pods/BoringSSL-GRPC/ssl/d1_both.cc:555-594 | Appends to the flight under the current epoch and number, after dropping a completed flight, whatever became of it, and refuses an eighth message. |
| DtlsSender.FlightSender.SetWriteState | ios/Pods/BoringSSL-GRPC/ssl/dtls_method.cc:97-109 | The current key and its number become those of the previous epoch; the flight stays. |
| DtlsSender.FlightSender.SealNextMessage | ios/Pods/BoringSSL-GRPC/ssl/d1_both.cc:644-737 | The code agrees with the abstract step and changes its fields accordingly. |
| DtlsSender.FlightSender.SealNextPacket | ios/Pods/BoringSSL-GRPC/ssl/d1_both.cc:739-780 | The code's loop agrees with the abstract packet; it succeeds iff something was sealed and nothing failed. |
| DtlsSender.FlightSender.SendPacket | ios/Pods/BoringSSL-GRPC/ssl/d1_both.cc:797-815 | One packet: sent and passed, or taken back when the transport refuses it, or lost when sealing failed behind its first records; under the guard sealing does not fail, and the guard holds again behind a sent packet. |
| DtlsSender.FlightSender.SendFlight | ios/Pods/BoringSSL-GRPC/ssl/d1_both.cc:782-827 | From any state and over any transport behaviour, the pieces passed are those sent before, those of the written packets and those lost, and tile the flight up to the position; every packet is at most the MTU; under the guard nothing is lost; a flight that was tiled by what was sent stays so iff nothing was lost; success means that the whole flight was written. It succeeds iff the position reached the end and the flush worked; under the guard, with an MTU that has room for a byte of any message and a transport that takes everything, it does. |
| DtlsSender.FlightSender.FlushFlight | ios/Pods/BoringSSL-GRPC/ssl/d1_both.cc:829-834 | The same, and the flight is complete. |
| DtlsSender.FlightSender.Retransmit | ios/Pods/BoringSSL-GRPC/ssl/d1_both.cc:836-845 | The same from the first byte: what was sent before does not count. |
| DtlsSender.FlightSender.Run | ios/Pods/BoringSSL-GRPC/ssl/d1_both.cc:555-845 | Over any run of added messages, new keys, flushes and retransmissions, each transmission under the guard, the packets sent since the flight was last begun tile it up to the position, and carry every message passed whole and in order. |
| DtlsDelivery.StepOk | ios/Pods/BoringSSL-GRPC/ssl/d1_both.cc:555-827 | Every step of sender, network and receiver keeps: queued messages are numbered, every record on the wire is a slice of a queued message, and the receiver is faithful. |
| DtlsDelivery.DeliveredIsPrefix | ios/Pods/BoringSSL-GRPC/ssl/d1_both.cc:297-827 | Over every run of the composed system, with packets of any size resent from any position, and records lost, duplicated and reordered, the delivered messages are a prefix of the queued ones (section 4.2.3 of RFC 6347). |
| TlsHandshake.ClientMoves | ios/Pods/BoringSSL-GRPC/ssl/handshake_client.cc:1707-1789 | Every transition of the client goes to the one next state that the parameters allow. |
| TlsHandshake.ServerMoves | ios/Pods/BoringSSL-GRPC/ssl/handshake_server.cc:1539-1621 | Every transition of the server goes to the one next state that the parameters allow. |
| TlsHandshake.ClientRankRises | ios/Pods/BoringSSL-GRPC/ssl/handshake_client.cc:1457-1672 | Every transition of the client raises a rank whose order depends on resumption, and a resumed client stays in resumed states. |
| TlsHandshake.ServerRankRises | ios/Pods/BoringSSL-GRPC/ssl/handshake_server.cc:1365-1532 | Every transition of the server raises a rank whose order depends on resumption, and a resumed server stays in resumed states. |
| TlsHandshake.ClientFinishedDiscipline | ios/Pods/BoringSSL-GRPC/ssl/handshake_client.cc:1457-1672 | Every run of the client that is done sent CCS, switched its write keys and sent Finished, exactly once in this order, and got CCS, switched its read keys and verified Finished, exactly once in this order: first the former in a full handshake, first the latter in a resumed one. |
| TlsHandshake.ServerFinishedDiscipline | ios/Pods/BoringSSL-GRPC/ssl/handshake_server.cc:1365-1509 | The same for the server, with the orders exchanged. |
| TlsPeer.ClientCompletes | ios/Pods/BoringSSL-GRPC/ssl/handshake_client.cc:385-1705 | Whatever the server and the network send in any step: a client that is done has hashed exactly one of the legal message sequences (section 7.3 of RFC 5246), and every Finished in it covers exactly what was hashed before it. |
| TlsPeer.ServerCompletes | ios/Pods/BoringSSL-GRPC/ssl/handshake_server.cc:426-1537 | Whatever arrives from the client: a server that is done has hashed exactly the legal sequence, with a CertificateVerify iff the client's Certificate message held a certificate, and every Finished in it covers exactly what was hashed before it. |
| TlsPeer.ClientVerifies | ios/Pods/BoringSSL-GRPC/ssl/handshake.cc:380-412 | In every run with any peer, the step that logs the verification consumed a Finished of the first encrypted epoch over exactly the client's transcript. |
| TlsPeer.ServerVerifies | ios/Pods/BoringSSL-GRPC/ssl/handshake.cc:380-412 | The same for the server. |
| TlsPeer.ClientRefusesFinished | ios/Pods/BoringSSL-GRPC/ssl/handshake.cc:398-408 | A Finished over anything else fails the client for good, with the error of a bad Finished and nothing logged. |
| TlsPeer.ServerRefusesFinished | ios/Pods/BoringSSL-GRPC/ssl/handshake.cc:398-408 | The same for the server. |
| TlsPeer.ClientStopsRefused | ios/Pods/BoringSSL-GRPC/ssl/handshake_client.cc:1707-1811 | A local operation that fails ends the client's handshake in every state. |
| TlsPeer.ServerStopsRefused | ios/Pods/BoringSSL-GRPC/ssl/handshake_server.cc:1539-1644 | The same for the server. |
| TlsPeer.OtherEpochFails | ios/Pods/BoringSSL-GRPC/ssl/handshake.cc:491-560 | A message under other keys than those of the current epoch, or a CCS in its place, ends the handshake. |
| TlsPeer.CcsNoted | ios/Pods/BoringSSL-GRPC/ssl/handshake.cc:491-560 | A ChangeCipherSpec is noted and consumed iff it is at the head of the inbox under the keys of the epoch; anything else there ends the handshake. |
| TlsAgreement.StepAgrees | ios/Pods/BoringSSL-GRPC/ssl/handshake_client.cc:535-1672 | Every step of the product of client, server and two FIFO channels keeps: each side stands at a position of one common message sequence with the transcript of that position, and the channels hold exactly what lies between. |
| TlsAgreement.NeverOutOfOrder | ios/Pods/BoringSSL-GRPC/ssl/handshake.cc:165-174 | From the start, neither side ever fails on an unexpected message or a bad Finished, in any run. |
| TlsAgreement.TranscriptsAgree | ios/Pods/BoringSSL-GRPC/ssl/handshake.cc:380-429 | In every run one transcript is a prefix of the other; the Finished that arrives was computed over exactly the transcript it is checked against, on both sides; at the end the transcripts are equal (section 7.4.9 of RFC 5246). |
| TlsProgress.NoDeadlock | ios/Pods/BoringSSL-GRPC/ssl/handshake.cc:491-628 | In every reachable state some side can move, unless a local operation failed or both are done. |
| TlsProgress.Finishes | ios/Pods/BoringSSL-GRPC/ssl/handshake.cc:491-628 | When local operations work, 172 turns of each side in alternation complete both handshakes, with the same transcript: every move that changes anything leaves less work. |
| TlsHandshakeCode.Handshake.Expect | ios/Pods/BoringSSL-GRPC/ssl/handshake.cc:165-222 | Getting, checking, hashing and consuming a message agree with the abstract read. |
| TlsHandshakeCode.Handshake.GetFinished | ios/Pods/BoringSSL-GRPC/ssl/handshake.cc:380-429 | Verifying, hashing and logging the peer's Finished agree with the abstract step. |
| TlsHandshakeCode.Handshake.AddFinished | ios/Pods/BoringSSL-GRPC/ssl/handshake.cc:431-474 | Computing, hashing and queueing the own Finished agree with the abstract step. |
| TlsHandshakeCode.Handshake.ResolveWait | ios/Pods/BoringSSL-GRPC/ssl/handshake.cc:491-540 | What the driver does with each wait agrees with the abstract resolution. |
| TlsHandshakeCode.DoReadCertificateStatus | ios/Pods/BoringSSL-GRPC/ssl/handshake_client.cc:821-869 | The early exits without a message and the peeked message agree with the client machine. |
| TlsHandshakeCode.DoReadServerKeyExchange | ios/Pods/BoringSSL-GRPC/ssl/handshake_client.cc:891-1071 | The branches on the peeked message agree with the client machine. |
| TlsHandshakeCode.DoReadCertificateRequest | ios/Pods/BoringSSL-GRPC/ssl/handshake_client.cc:1073-1143 | The branches on the peeked message agree with the client machine. |
| TlsHandshakeCode.DoSendClientFinished | ios/Pods/BoringSSL-GRPC/ssl/handshake_client.cc:1457-1512 | CCS, key switch, NPN, Channel ID and Finished are sent in the order of the client machine. |
| TlsHandshakeCode.DoSendServerFinished | ios/Pods/BoringSSL-GRPC/ssl/handshake_server.cc:1463-1509 | Ticket, CCS, key switch and Finished are sent in the order of the server machine. |
| TlsHandshakeCode.ClientDispatch | ios/Pods/BoringSSL-GRPC/ssl/handshake_client.cc:1707-1789 | One turn of the client's loop, in place, agrees with the client machine. |
| TlsHandshakeCode.ClientHandshake | ios/Pods/BoringSSL-GRPC/ssl/handshake_client.cc:1707-1789 | The client's loop terminates and agrees with the iterated machine; it returns without a wait only when done. |
| TlsHandshakeCode.ServerDispatch | ios/Pods/BoringSSL-GRPC/ssl/handshake_server.cc:1539-1621 | One turn of the server's loop, in place, agrees with the server machine. |
| TlsHandshakeCode.ServerHandshake | ios/Pods/BoringSSL-GRPC/ssl/handshake_server.cc:1539-1621 | The server's loop terminates and agrees with the iterated machine; it returns without a wait only when done. |
| TlsDriver.ClientLoopRuns | ios/Pods/BoringSSL-GRPC/ssl/handshake_client.cc:1707-1789 | The turns of the client's loop are a run of moves of the system. |
| TlsDriver.ServerLoopRuns | ios/Pods/BoringSSL-GRPC/ssl/handshake_server.cc:1539-1621 | The turns of the server's loop are a run of moves of the system. |
| TlsDriver.ClientCall | ios/Pods/BoringSSL-GRPC/ssl/handshake.cc:491-628 | The code of the client's loop and of the wait behind it takes the system through a run of moves, so that the agreement theorems hold of the code. |
| TlsDriver.ServerCall | ios/Pods/BoringSSL-GRPC/ssl/handshake.cc:491-628 | The same for the server. |
| TlsBuffer.SSLBuffer.EnsureCap | ios/Pods/BoringSSL-GRPC/ssl/ssl_buffer.cc:47-81 | Keeps the contents, refuses 65536 and more, and otherwise gives the capacity with an aligned body. |
| TlsBuffer.SSLBuffer.Write | ios/Pods/BoringSSL-GRPC/ssl/ssl_buffer.cc:83-88 | Appends the data to the contents. |
| TlsBuffer.SSLBuffer.Consume | ios/Pods/BoringSSL-GRPC/ssl/ssl_buffer.cc:90-97 | Drops the front of the contents, unless the 16-bit offset wraps while something is left. |
| TlsBuffer.ConsumeExact | ios/Pods/BoringSSL-GRPC/ssl/ssl_buffer.cc:90-97 | Consuming keeps the rest of every contents iff the offset stays below 65536 or nothing is left. |
| TlsBuffer.CapacityExact | ios/Pods/BoringSSL-GRPC/ssl/ssl_buffer.cc:47-97 | A buffer of some capacity keeps all contents, for every alignment and every amount consumed, iff the capacity is none of the last six below 65536. |
| TlsWrite.ChunksTile | ios/Pods/BoringSSL-GRPC/ssl/s3_both.cc:184-193 | The chunks of a message join to the message, all but the last are full, and only an empty message has an empty chunk. |
| TlsWrite.HoldsPlain | ios/Pods/BoringSSL-GRPC/ssl/s3_both.cc:184-193 | Records that hold the first chunks of a message add exactly their bytes to the plaintext of their type. |
| TlsWrite.WriteSide.constructor | ios/Pods/BoringSSL-GRPC/ssl/s3_both.cc:231-279 | A new write side has sealed nothing and conserves everything. |
| TlsWrite.WriteSide.AddRecordToFlight | ios/Pods/BoringSSL-GRPC/ssl/s3_both.cc:135-165 | Seals one record behind the pending flight; conservation holds, and a failure seals nothing. |
| TlsWrite.WriteSide.AddMessage | ios/Pods/BoringSSL-GRPC/ssl/s3_both.cc:184-205 | The message is sealed chunk by chunk in handshake records, all of it on success and a prefix of the chunks on failure; conservation holds, and the flight grows by exactly the bytes of the new records. It succeeds iff every chunk is sealed. |
| TlsWrite.WriteSide.AddChangeCipherSpec | ios/Pods/BoringSSL-GRPC/ssl/s3_both.cc:207-218 | Seals one CCS record or none, and succeeds iff it is sealed; conservation holds. |
| TlsWrite.WriteSide.FlushBuffer | ios/Pods/BoringSSL-GRPC/ssl/ssl_buffer.cc:239-252 | Under any partial or failed writes conservation holds; success means an empty buffer, and it succeeds iff the transport takes everything before it fails. |
| TlsWrite.WriteSide.FlushFlight | ios/Pods/BoringSSL-GRPC/ssl/s3_both.cc:231-279 | Under any partial or failed writes conservation holds and the offset only grows; it succeeds on a pending flight iff the connection is open for writing, the length is an int, and the transport takes first the buffer and then the flight, and flushes; then every sealed byte was accepted. With a transport that always takes something it does. |
| TlsWrite.WriteSide.WritePending | ios/Pods/BoringSSL-GRPC/ssl/s3_pkt.cc:202-218 | A retry with other arguments is refused without effect; otherwise the buffer is flushed, and it reports the length of the pending record iff the transport takes everything. |
| TlsWrite.WriteSide.Reserve | ios/Pods/BoringSSL-GRPC/ssl/s3_pkt.cc:239-266 | The unwritten flight moves in front of the new record; conservation holds unless the capacity is one of the last six below 65536. |
| TlsWrite.WriteSide.DoWrite | ios/Pods/BoringSSL-GRPC/ssl/s3_pkt.cc:221-289 | A pending record is flushed and nothing is sealed; otherwise exactly the given data is sealed once, and success reports its length with an empty buffer; conservation holds unless a new record needs one of the last six capacities below 65536. |
| TlsWrite.WriteSide.WriteAppData | ios/Pods/BoringSSL-GRPC/ssl/s3_pkt.cc:129-200 | Records are at most maxFragment long. A write under way stays so through a call that fails iff the call presents no fewer bytes than wnum; one that presents less than what was sealed is refused without effect. For the same data, a return of r > 0 means that exactly its first r bytes were sealed since the write began, each once. In every other case too, exactly the bytes between the two marks that wnum and the pending record set are sealed. Conservation holds unless a first record will be sealed and needs one of the last six capacities. |
| TlsWrite.WriteSide.Run | ios/Pods/BoringSSL-GRPC/ssl/s3_pkt.cc:221-289 | Over any run of messages, CCS, flushes and writes, under any transport behaviour, up to a write that will seal a first record, needing one of the last six capacities below 65536, or an addition to a flight being written: accepted bytes, write buffer and unwritten flight together are all sealed records in the order of sealing. |
| TlsWrite.WriteSide.RunRetrying | ios/Pods/BoringSSL-GRPC/ssl/s3_pkt.cc:129-289 | Over any run in which each write presents at least wnum bytes and agrees with what was sealed, with messages and flushes in between, the application plaintext sealed is exactly the reported part of the data of the write that succeeds. |
| TlsWrite.ForgottenWrite | ios/Pods/BoringSSL-GRPC/ssl/s3_pkt.cc:149-163 | From every state with a write under way and wnum > 0, a retry with any length below wnum makes the next write that succeeds seal the data again from the end of the pending record's length, or from its first byte if none is pending, behind everything sealed before; with a working transport and sealing it succeeds. |
| TlsWrite.WrittenTwice | ios/Pods/BoringSSL-GRPC/ssl/s3_pkt.cc:149-163 | From a new write side: a write of 513 bytes whose second record fails to seal once; after a retry with a negative length it succeeds, and its first 512 bytes were sealed twice. |
| TlsWrite.LongFlight | ios/Pods/BoringSSL-GRPC/ssl/s3_both.cc:184-205 | A new write side whose handshake message of 65412 bytes fills four records of TLS 1.3 gets to the state from which CapacityExact starts. |
| TlsWrite.CapacityExact | ios/Pods/BoringSSL-GRPC/ssl/s3_pkt.cc:221-289 | Behind a flight of 65500 bytes, over a transport that takes 65529 bytes and then fails, and with the records of TLS 1.3: a write of any data keeps everything sealed in the transport, the buffer and the flight iff the capacity that it needs is below 65530 or at least 65536. It is refused from 65536 on, and otherwise its record is sealed. |
| Refcount.LockedCount.Increment | ios/Pods/BoringSSL-GRPC/crypto/refcount_lock.c:29-35 | The locked version is the atomic saturating increment. |
| Refcount.LockedCount.DecrementAndTestZero | ios/Pods/BoringSSL-GRPC/crypto/refcount_lock.c:37-51 | The locked version is the atomic saturating decrement with its result or abort. |
| Refcount.SharedCount.Increment | ios/Pods/BoringSSL-GRPC/crypto/refcount_c11.c:37-47 | Whatever the other threads leave in the count and however often the exchange fails, the loop makes one change, that of the atomic counter on the value it found, or none on a saturated count. |
| Refcount.SharedCount.DecrementAndTestZero | ios/Pods/BoringSSL-GRPC/crypto/refcount_c11.c:49-65 | The same for the decrement, with its result; it aborts iff it read zero. |
| Refcount.Linearizable | ios/Pods/BoringSSL-GRPC/crypto/refcount_c11.c:37-65 | For any number of threads and any schedule with spurious failures, the operations have one order of effect in which they are operations of the atomic counter, and each thread got the results of that order. |
| Refcount.OrderKept | ios/Pods/BoringSSL-GRPC/crypto/refcount_c11.c:37-65 | An operation that has taken effect stays before all later ones in that order. |
| Refcount.ExactlyOneZero | ios/Pods/BoringSSL-GRPC/crypto/refcount_c11.c:49-65 | If every caller owns a reference, no decrement fails, the count is the number of references unless it saturated, and the number of decrements that reported zero is one if the count is zero and none otherwise. |
| Refcount.AllReleased | ios/Pods/BoringSSL-GRPC/crypto/refcount_c11.c:49-65 | Once all references are released exactly one decrement has reported zero, or none if the count saturated. |
| Refcount.SaturatedStays | ios/Pods/BoringSSL-GRPC/crypto/refcount_c11.c:34-65 | A count of 2^32-1 never changes again, and no decrement of it reports zero. |
| Premaster.MsbW | ios/Pods/BoringSSL-GRPC/crypto/internal.h:244-246 | All ones iff the top bit is set, for words of any width. |
| Premaster.LtW | ios/Pods/BoringSSL-GRPC/crypto/internal.h:249-282 | The branch-free comparison is all ones iff a < b, for words of any width. |
| Premaster.GeW | ios/Pods/BoringSSL-GRPC/crypto/internal.h:291-294 | All ones iff a >= b. |
| Premaster.IsZeroW | ios/Pods/BoringSSL-GRPC/crypto/internal.h:303-316 | All ones iff the word is zero. |
| Premaster.EqW | ios/Pods/BoringSSL-GRPC/crypto/internal.h:325-328 | All ones iff the words are equal. |
| Premaster.Lt8 | ios/Pods/BoringSSL-GRPC/crypto/internal.h:286-288 | The 8-bit mask of the same truth value. |
| Premaster.Ge8 | ios/Pods/BoringSSL-GRPC/crypto/internal.h:298-300 | The 8-bit mask of the same truth value. |
| Premaster.IsZero8 | ios/Pods/BoringSSL-GRPC/crypto/internal.h:320-322 | The 8-bit mask of the same truth value. |
| Premaster.Eq8 | ios/Pods/BoringSSL-GRPC/crypto/internal.h:332-334 | The 8-bit mask of the same truth value. |
| Premaster.SelectBit | ios/Pods/BoringSSL-GRPC/crypto/internal.h:351-355 | The selection takes each bit from a where the mask is set and from b where it is not. |
| Premaster.Select8 | ios/Pods/BoringSSL-GRPC/crypto/internal.h:359-362 | With a full or empty mask the selection is the first or the second byte. |
| Premaster.PaddedIff | ios/Pods/BoringSSL-GRPC/ssl/handshake_server.cc:1157-1164 | The checks at fixed positions accept exactly the blocks that decode, by searching the first zero, to a message of 48 bytes (section 7.2.2 of RFC 3447). |
| Premaster.PremasterExact | ios/Pods/BoringSSL-GRPC/ssl/handshake_server.cc:1140-1172 | The decrypted secret is taken iff the block begins with 00 02, the first zero behind that stands before the last 48 bytes, and those begin with the version; otherwise the random one. |
| Premaster.CheckPadding | ios/Pods/BoringSSL-GRPC/ssl/handshake_server.cc:1157-1164 | The masked loop computes the mask of those checks. |
| Premaster.SelectPremaster | ios/Pods/BoringSSL-GRPC/ssl/handshake_server.cc:1142-1178 | The loops leave the last 48 bytes iff the block is well padded and they begin with the client's version, and the random secret unchanged otherwise (section 7.4.7.1 of RFC 5246); shorter blocks are refused. |
| CipherChoice.Scan | ios/Pods/BoringSSL-GRPC/ssl/handshake_server.cc:386-424 | The loop returns a best candidate, or nothing iff there is no candidate. |
| CipherChoice.ChooseCipher | ios/Pods/BoringSSL-GRPC/ssl/handshake_server.cc:357-424 | With server preference: a usable shared cipher of the first group that has one and, within it, the earliest of the client's list; otherwise by the client's order. The cipher is in both lists, of the version, and has a key exchange and an authentication that the masks allow; nothing is chosen iff there is no such cipher. |
| CipherChoice.BestUnique | ios/Pods/BoringSSL-GRPC/ssl/internal.h:1860-1888 | At most one cipher is best. |
| CipherChoice.FirstShared | ios/Pods/BoringSSL-GRPC/ssl/handshake_server.cc:374-383 | Without groups the best candidate is the first. |
| CipherChoice.SameGroup | ios/Pods/BoringSSL-GRPC/ssl/handshake_server.cc:374-383 | Two ciphers are in one group iff no group ends from the first to the one before the second. |

## Left out

- nanopb callbacks, extensions, pointer fields, fixed-count arrays, unions whose members have different tag fields, and the delimited and null-terminated forms: user code, heap memory, or variants of the same loops.
- Overflow of `size_t` in nanopb sizes, and descriptors that contain themselves, which the code follows until the data ends.
- `PB_FIELD_32BIT` is set by "ios/Pods/Target Support Files/nanopb/nanopb.xcconfig"; the model has the widths of that build.
- The destination struct of a nested message is a value that is copied in and out; aliasing between a message and its submessage is not modelled, and the contents of the destination after a failed decode are only what the specification says of the slot that failed.
- PbRoundTrip.MsgDecodes: for messages whose length prefixes are below 2^32, because the decoder reads every prefix as a 32-bit number; what it makes of a longer one is not stated.
- PbEndToEnd.EncodeThenDecode: its decoding half has the same bound on the prefixes.
- PbContent.ContentRoundTrip: has the same bound on the prefixes.
- PbForward.ForwardCompatible: has the same bound on the prefixes; groups (wire types 3 and 4) are refused by the code and are not inserted.
- PbMerge.DecodeMerges: for records whose values and lengths are spelled as the encoder spells them, and below 2^32 bytes; padded varints are read, but are not among its streams.
- PbWire.Varint32RoundTrip: says nothing of other non-canonical inputs, of which the 32-bit decoder accepts some whose dropped bits differ from the 64-bit reading.
- PbOutput.OStream.Encode: for messages whose nested encodings have fewer than 2^64 bytes, which the type of sizes enforces in the code.
- DtlsReplay.NeverTwice: for fewer than 65536 epochs, because the epoch in a record has 16 bits and the code lets it wrap.
- DtlsReceiver.DeliverySafety: for fewer than 65536 messages, because the message number has 16 bits and the code lets it wrap.
- DtlsSender.FlightSender.SendFlight: records are sealed to a length and a sequence number; header bytes and AEAD contents are abstract, and the guard assumes a nonce within the stated overhead and an MTU below 65536.
- DTLS timers, HelloVerifyRequest, MTU discovery, the shutdown check before a flight, alerts, and the leftover-data check of `dtls1_set_read_state`.
- DtlsReplay.RecordReader.OpenRecord: begins after the checks of the record header; whether decryption succeeds, and the length of the plaintext, are part of the arriving record.
- TlsPeer.ClientCompletes: fixes the kinds and the order of the messages and the cover of each Finished; message bodies, and whether a peer that knows the transcript is the right one, are left to the abstract cryptography.
- DtlsComplete.CoverageDelivers: for slices of the sent messages; a fragment exactly seven ahead, or too long, or of another message in the encrypted epoch, ends its record with an alert.
- TlsAgreement.NeverOutOfOrder: both sides start with the same negotiated parameters; the exchange of the hello bodies that settles them, SSL 3.0, renegotiation, False Start, early data, HelloVerifyRequest and the V2 ClientHello are not modelled.
- TlsHandshakeCode.Handshake.ResolveWait: one turn of `ssl_run_handshake`; record opening and its retries are the inbox of the model.
- The TLS 1.3 machines, extension parsing, certificates, key derivation, and the bodies of messages; the transcript is a sequence of messages instead of a hash.
- TlsWrite.WriteSide.WriteAppData: outside early data; record splitting is inside the abstract record protection, which is only assumed to be bounded by the overhead.
- TlsWrite.WriteSide.Run: stops before a write that will seal a first record needing one of the last six capacities below 65536, for which the property depends on the address of the allocation, and before an addition to a flight being written, which the code asserts against.
- TlsWrite.WriteSide.RunRetrying: says nothing of the bytes on the wire, which `TlsWrite.WriteSide.Run` covers; alerts are not among the events, and memory allocation succeeds, with malloc only as the address that decides the alignment and new memory read as zero.
- Refcount.SharedCount.Increment: the loop gives up after a number of failures that the caller chooses, because whether it ever succeeds depends on the other threads; `Refcount.Linearizable` has no such bound.
- Refcount.ExactlyOneZero: memory ordering is sequentially consistent, as the default orders of the code require.
- CipherChoice.ChooseCipher: takes the parsed client list; the loop expects the group flags to be 0 or 1 and 0 at the last element, as the comment on the type demands, and the masks of usable algorithms are parameters.
- Premaster.SelectPremaster: begins with the decrypted block; that the machine code stays free of branches is not a property of this model, and `constant_time_eq_int` and `constant_time_select_int` are covered by their word forms on values that are not negative.
