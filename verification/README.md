# Proofs for nanopb and the TLS/DTLS core

This project models the protocol code that the application ships under `Pods`, and proves what that
code is for. Each module follows one source file or one component of it.

* **nanopb** (`Wire`, `Descriptors`, `EncodeSpec`, `DecodeSpec`, `MessageShape`, `ScalarRoundTrip`,
  `RoundTrip`, `WireFormat`, `WireReading`, `WireMeaning`, `WireDecoding`, `WireResults`, `UnknownFields`,
  `DecodeProperties`, `RequiredLimit`, `PbCommon`, `FieldsSeen`, `PbEncode`, `PbDecode`): the encoder and
  decoder that interpret a table of field descriptors, in the Protocol Buffers wire format. `EncodeSpec` and `DecodeSpec` say what bytes mean; `PbEncode` and `PbDecode` are the streams,
  loops and cursors of the C code, proved to do just that; `RoundTrip` proves that decoding inverts encoding.
  `WireFormat` is the wire grammar by itself, and the other `Wire` modules say what both sides do in its terms.
* **DTLS handshake transport** (`ReplayWindow`, `DtlsRecord`, `HandshakeFragment`, `Headers`, `Reassembly`,
  `DtlsFlight`, `DtlsSend`, `DtlsReceive`, `DtlsReceiver`, `DtlsDelivery`, `DtlsArrival`), sections
  4.1.2.6 and 4.2.2 to 4.2.6 of RFC 6347: flights cut into packets, reassembly with a bit mask in a ring of seven slots, the replay window, and delivery
  over a network that drops, duplicates and reorders.
* **TLS stream** (`SslBuffer`, `TlsOutbound`, `TlsRuns`, `TlsMessages`, `TlsInbound`, `TlsDelivery`), section 6.2.1 of
  RFC 5246: two outbound queues with write retry, and the inbound handshake buffer.
* **Handshake** (`HandshakeCommon`, `HandshakeClient`, `HandshakeServer`, `Handshake`, `HandshakeEvidence`,
  `HandshakeFlow`, `HandshakeRuns`, `HandshakeRefusal`), sections 7.3 and 7.4 of RFC 5246: both state machines
  over all runs, what a finished one has been through, and that good ones finish.
* **Cipher choice** (`CipherChoice`) and **reference counts** (`Refcount`), the latter as interleaved
  compare-and-swap loops against the locked counter.
* **Sessions in DER** (`Der`, `DerExact`, `Session`, `CertChain`, `SessionRoundTrip`, `SessionFormat`,
  `SessionGrammar`, `SessionExact`, `Cbb`, `Cbs`, `SslAsn1`), sections
  8.1 and 10.1 of ITU-T X.690: printing and parsing, as functions and as the builder and cursor of the source.

`dafny verify dfyconfig.toml` checks everything.

Imperative code is a class or method whose contract equates its result with a function on values; the
lemmas are about those functions. Ghost fields record what the code itself does not keep: the bytes the
transport accepted, the messages queued, the records accepted.

## What the code does not keep

Where a promise fails, the code is modelled as it is, an input that breaks it is given, and the exact
condition under which it holds is proved.

* The zero check of proto3 singular submessages reads the start of a fixed-count array as a count
  (pb_encode.c line 228), and the initialisation clears that much of it (pb_decode.c line 843). Leaving out
  the submessage is right if and only if all such arrays of its table lie in that word: `ZeroCheckExact`,
  `ArrayInWord`, `TextInWord`; a longer one is lost: `FixedCountArrayLost`. A message is well formed for
  `MessageRoundTrip` only if this holds of the submessages it leaves out.
* The encoder accepts a string buffer without a NUL (pb_encode.c line 847), the decoder then refuses it:
  `StringAcceptedIff`. Well-formed strings have one.
* The first 64 required fields are checked, not all: a success means that all were read if and only if there
  are at most 64, `RequiredReadIff`, and `SixtyFifthMissing` is input without the 65th.
* `SSLBuffer::offset_` has 16 bits (ssl_buffer.cc line 94), and the alignment of up to seven bytes is not
  counted in its capacity. A write that asks for at most 2^16 - 7 bytes of room never loses a byte
  (`Conn.DoWrite`), for every larger one below 2^16 a run loses some (`LosesBytes`), and from 2^16 on it is refused.
* A retry of ssl3_write_app_data that is shorter than what was counted already is refused, but forgets the
  count (s3_pkt.cc line 145). Among retries that agree with what was sealed these are exactly the ones that
  break the stream (`Conn.WriteAppData`), and `RepeatsBytes` is a run that sends bytes twice.
* The 16-bit DTLS epoch and the 16-bit message number wrap: `EpochWrapReplay`, `NumbersWrap`.
* The two window guards of DTLS differ at read_seq+7: line 380 of d1_both.cc lets it through and line 268
  makes it an error. `TrueFragmentRefused` says exactly when a fragment of an honest sender ends in an error,
  `WindowEdge` is such a run.
* A certificate list with entries that are not single DER elements does not come back: `ChainRoundTrip`. Nor
  does a session with an empty leaf certificate, a negative verify_result, or a version or cipher that is
  unknown: `SessionParsesBack` gives the exact condition.
* When sealing fails in the middle of a packet, the cursor of send_flight is not put back, only a failed
  write does that. Fragments are lost if and only if the first error of a packet comes behind a sealed record
  (`Sender.SendPacket`, with `FailsExactly`), and `LosesMessage` is a run that then reports success.

## Model

| member | source | states |
|---|---|---|
| `RoundTrip.MessageRoundTrip` | Santa I Wish/Pods/nanopb/pb_decode.c:901-1063 | for every table and message that are well formed, decoding the encoding succeeds, consumes it all, and gives a message that reads the same field by field: presence, array lengths, the selected oneof member, string contents, submessages of any depth |
| `WireMeaning.MessageOnWire` | Santa I Wish/Pods/nanopb/pb_encode.c:394-516 | a reader that knows only the wire grammar (tag words; varints; eight bytes; a length and that many bytes; four bytes) steps over any encoded message exactly and finds the fields of the message, in the order of the table, with their numbers, wire types 0, 1, 2 and 5, and values |
| `WireDecoding.DecodesFields` | Santa I Wish/Pods/nanopb/pb_decode.c:901-1063 | on any input whose known fields have the wire types of the table, in any order, repeated, packed or not, with unknown fields between them: pb_decode_noinit gives what taking in the wire fields one after the other gives, value by value as the wire grammar says, and fails exactly when a value, a fixed-count array or a required field does |
| `WireResults.SucceedsExactly` | Santa I Wish/Pods/nanopb/pb_decode.c:988-1063 | such input is decoded if and only if every value fits, the last fixed-count array is complete, and the number of every required field among the first 64 occurs on the wire |
| `WireResults.AbsentReadsDefault` | Santa I Wish/Pods/nanopb/pb_decode.c:812-899 | a field that does not occur on the wire reads as not present, without entries, or as the default its table gives, and zero or empty if it gives none |
| `WireResults.FixedArraysFull` | Santa I Wish/Pods/nanopb/pb_decode.c:964-1012 | after a success every fixed-count array that occurs on the wire has all its entries |
| `RoundTrip.ZeroCheckExact` | Santa I Wish/Pods/nanopb/pb_encode.c:215-303 | a proto3 singular submessage that the zero check leaves out reads the same as what the decoder initialises it to, if and only if every fixed-count array of its table lies in the word that the initialisation clears |
| `RoundTrip.ArrayInWord` | Santa I Wish/Pods/nanopb/pb_decode.c:838-843 | for numbers and inline arrays, lying in that word means that the array has at most four bytes |
| `RoundTrip.TextInWord` | Santa I Wish/Pods/nanopb/pb_decode.c:838-843 | for strings it means that each entry begins in the word, for byte arrays that there is at most one |
| `RoundTrip.ValueRoundTrip` | Santa I Wish/Pods/nanopb/pb_decode.c:1289-1508 | each pb_dec_* function inverts the pb_enc_* function of the same type, and leaves exactly the bytes that follow |
| `RoundTrip.FieldRoundTrip` | Santa I Wish/Pods/nanopb/pb_encode.c:307-392 | one table entry, required, optional, singular, repeated or oneof, present or absent, is read back by the decoding loop; the state of the loop afterwards agrees with the message on one entry more |
| `RoundTrip.RepeatedRoundTrip` | Santa I Wish/Pods/nanopb/pb_encode.c:126-211 | a repeated field, packed or not, arrives whole and in order, counted or as a fixed-count array |
| `RoundTrip.UnpackedRoundTrip` | Santa I Wish/Pods/nanopb/pb_decode.c:445-459 | an unpacked array arrives entry by entry, each with its own tag |
| `RoundTrip.KnownStep` | Santa I Wish/Pods/nanopb/pb_decode.c:921-998 | after the tag word of an entry the loop decodes that very entry, wherever the cursor stood |
| `UnknownFields.UnknownFieldsTransparent` | Santa I Wish/Pods/nanopb/pb_decode.c:919-962 | wire fields whose numbers are not in the table, any sequence of them by the wire grammar, inserted at any field boundary, change neither whether pb_decode_noinit succeeds nor the message nor what is left in the stream |
| `UnknownFields.SkippedTransparent` | Santa I Wish/Pods/nanopb/pb_decode.c:919-962 | the same of whatever the loop skips, tag words that only the 32-bit reader accepts included |
| `UnknownFields.UnknownSkipped` | Santa I Wish/Pods/nanopb/pb_decode.c:316-326 | by the wire grammar alone: every sequence of unknown wire fields is skipped, field by field, to its end |
| `WireReading.SkipExactly` | Santa I Wish/Pods/nanopb/pb_decode.c:316-326 | one payload is stepped over exactly: a varint of any length, eight bytes, a length and that many bytes, or four bytes, by wire type 0, 1, 2 and 5; any other type and a payload cut short are errors |
| `UnknownFields.UnknownRun` | Santa I Wish/Pods/nanopb/pb_decode.c:941-961 | skipping unknown fields leaves the cursor, the required-field bits, the fixed-count progress and the message as they were |
| `UnknownFields.RunThen` | Santa I Wish/Pods/nanopb/pb_decode.c:919-998 | decoding is compositional: after some whole fields the loop goes on with what follows them |
| `UnknownFields.StepMore` | Santa I Wish/Pods/nanopb/pb_decode.c:293-326 | a turn of the loop reads the same field whatever bytes follow it |
| `DecodeProperties.RoundTripWithUnknown` | Santa I Wish/Pods/nanopb/pb_decode.c:901-1063 | an encoded message still reads the same with unknown fields inserted at a field boundary |
| `DecodeProperties.RequiredFieldsRead` | Santa I Wish/Pods/nanopb/pb_decode.c:988-1046 | pb_decode_noinit succeeds only if the tag of each of the first 64 required fields occurred among the fields it read |
| `RequiredLimit.RequiredReadIff` | Santa I Wish/Pods/nanopb/pb_decode.c:988-1046 | for every table that some input decodes: every success has read all required fields, if and only if the table has at most 64 of them |
| `RequiredLimit.UncheckedMissing` | Santa I Wish/Pods/nanopb/pb_decode.c:988-1046 | any input that decodes, without the occurrences of a required field behind the 64th, decodes as well |
| `RequiredLimit.SixtyFifthMissing` | Santa I Wish/Pods/nanopb/pb_decode.c:1015-1025 | input that decodes for a table of 65 required fields without the last of them |
| `RequiredLimit.StepCut` | Santa I Wish/Pods/nanopb/pb_decode.c:921-998 | a field can be cut off from what follows it: the turn of the loop that reads it is the same |
| `DecodeProperties.SeenWasRead` | Santa I Wish/Pods/nanopb/pb_decode.c:988-993 | a required-field bit is set only by a field with that tag |
| `DecodeProperties.StringAcceptedIff` | Santa I Wish/Pods/nanopb/pb_decode.c:1428-1461 | what the encoder writes for a full string buffer is accepted by the decoder if and only if a NUL lies inside the buffer, and then the text is the same; the encoder accepts both |
| `DecodeProperties.FixedCountArrayLost` | Santa I Wish/Pods/nanopb/pb_encode.c:225-230 | a concrete message that the zero check drops and that does not come back: a fixed-count array longer than its first word, which reads as a zero count |
| `FieldsSeen.WordsAreSets` | Santa I Wish/Pods/nanopb/pb_decode.c:1015-1046 | the test on the words of fields_seen, with its mask for the last word, holds if and only if every required field up to the limit is in the set of fields seen |
| `FieldsSeen.HoldsOneMore` | Santa I Wish/Pods/nanopb/pb_decode.c:988-993 | setting a bit in a word adds exactly that number to the set |
| `PbCommon.FindComplete` | Santa I Wish/Pods/nanopb/pb_common.c:78-95 | the search finds a tag from any cursor position if and only if some entry that is not an extension has it |
| `PbCommon.UnionAddress` | Santa I Wish/Pods/nanopb/pb_common.c:48-66 | members of one union have one data address and one size address |
| `PbCommon.FieldIter.Begin` | Santa I Wish/Pods/nanopb/pb_common.c:8-18 | the cursor starts at the first entry, with pData, pSize and required_field_index those of that entry |
| `PbCommon.FieldIter.Next` | Santa I Wish/Pods/nanopb/pb_common.c:20-76 | the cursor moves to the next entry or wraps to the first, saying which; pData, pSize and required_field_index are again a function of the position alone |
| `PbCommon.FieldIter.FindTag` | Santa I Wish/Pods/nanopb/pb_common.c:78-95 | the wrapping search stops at the first match from where it stood, or back at its start |
| `Wire.VarintRoundTrip` | Santa I Wish/Pods/nanopb/pb_decode.c:250-271 | pb_decode_varint inverts pb_encode_varint on every 64-bit value, whatever follows |
| `WireReading.DecVarintExactly` | Santa I Wish/Pods/nanopb/pb_decode.c:250-271 | of any varint on the wire, minimal or not, pb_decode_varint gives the low 64 bits if it has at most ten bytes, and fails otherwise |
| `WireReading.DecVarint32Exactly` | Santa I Wish/Pods/nanopb/pb_decode.c:182-242 | every number below 2^32 is read, in however many bytes |
| `WireReading.DecTagExactly` | Santa I Wish/Pods/nanopb/pb_decode.c:293-314 | a tag word on the wire gives its number and its low three bits |
| `Wire.EncVarintAtMostTen` | Santa I Wish/Pods/nanopb/pb_encode.c:574-594 | a 64-bit value takes one to ten bytes |
| `Wire.Varint32OfEncoding` | Santa I Wish/Pods/nanopb/pb_decode.c:182-242 | for every 64-bit value, exactly when pb_decode_varint32 accepts its encoding, and that it then returns the low 32 bits |
| `Wire.Varint32Ranges` | Santa I Wish/Pods/nanopb/pb_decode.c:182-242 | exact below 2^32, an error from 2^32 up to 2^63, the low 32 bits of a sign-extended negative int32 |
| `Wire.SignExtendedAccepted` | Santa I Wish/Pods/nanopb/pb_decode.c:206-222 | every sign-extended negative int32 is among the accepted values |
| `Wire.ZigZagRoundTrip` | Santa I Wish/Pods/nanopb/pb_decode.c:1240-1252 | the zigzag mappings of pb_encode_svarint and pb_decode_svarint are inverse on every signed 64-bit value |
| `Wire.ZigZagOrder` | Santa I Wish/Pods/nanopb/pb_encode.c:596-605 | zigzag numbers 0, -1, 1, -2, 2, ... in that order |
| `Wire.LittleEndianRoundTrip` | Santa I Wish/Pods/nanopb/pb_decode.c:1254-1287 | fixed32 and fixed64 come back |
| `ScalarRoundTrip.ScalarInverse` | Santa I Wish/Pods/nanopb/pb_decode.c:1289-1389 | each integer decoder inverts its encoder for every storage width |
| `WireMeaning.ScalarCarries` | Santa I Wish/Pods/nanopb/pb_encode.c:734-808 | the bytes of a number are the payload of its wire type: two's complement or zigzag in a varint, four or eight bytes least significant first |
| `WireMeaning.TaggedTaken` | Santa I Wish/Pods/nanopb/pb_encode.c:641-672 | a value is a tag word, field number times eight plus wire type, and the payload that it announces |
| `WireMeaning.PackedTaken` | Santa I Wish/Pods/nanopb/pb_encode.c:126-186 | a packed array is its entries one after the other |
| `WireMeaning.LeftOutExactly` | Santa I Wish/Pods/nanopb/pb_encode.c:215-303 | a proto3 singular field is left out exactly when its number is zero, its bytes or text are empty, or it is a message of which nothing would be written |
| `WireMeaning.MessageRefused` | Santa I Wish/Pods/nanopb/pb_encode.c:394-516 | a message with the layout of its table has no encoding exactly when one of the values to be written has none |
| `WireMeaning.ValueRefused` | Santa I Wish/Pods/nanopb/pb_encode.c:734-870 | a value is refused exactly for its storage width, the size of a byte array, or a submessage that cannot be written |
| `WireDecoding.NumberRead` | Santa I Wish/Pods/nanopb/pb_decode.c:1289-1389 | the number that a payload stands for, in 64 or 32 bits, signed, unsigned or zigzag, or a refusal because the member cannot hold it |
| `WireDecoding.ValueRead` | Santa I Wish/Pods/nanopb/pb_decode.c:1391-1508 | texts, byte arrays and inline arrays from a length and that many bytes, refused exactly when they do not fit |
| `WireDecoding.PackedRead` | Santa I Wish/Pods/nanopb/pb_decode.c:427-443 | a packed run appends the numbers of its payloads, one by one, up to the size of the array |
| `ScalarRoundTrip.PackedInverse` | Santa I Wish/Pods/nanopb/pb_decode.c:427-443 | a packed run fills the array from its first entry to its last |
| `ScalarRoundTrip.TagRoundTrip` | Santa I Wish/Pods/nanopb/pb_decode.c:293-307 | a tag word gives back the field number and the wire type |
| `ScalarRoundTrip.StringRoundTrip` | Santa I Wish/Pods/nanopb/pb_decode.c:367-380 | a length and that many bytes come back as those bytes |
| `ScalarRoundTrip.StoreInverse` | Santa I Wish/Pods/nanopb/pb_decode.c:1391-1508 | a stored string, byte array or inline array reads as the one written |
| `PbEncode.EncodeToBuffer` | Santa I Wish/Pods/nanopb/pb_encode.c:494-516 | encoding into a buffer of n bytes succeeds if and only if the sizing pass does with at most n, and then the buffer starts with exactly the encoding |
| `PbEncode.GetEncodedSize` | Santa I Wish/Pods/nanopb/pb_encode.c:533-542 | the sizing pass succeeds exactly when the message can be encoded, and returns the exact length of the encoding |
| `PbEncode.Encode` | Santa I Wish/Pods/nanopb/pb_encode.c:494-516 | pb_encode appends to any stream, sizing or writing, the encoding of the message, or stops when the message has none or it does not fit |
| `PbEncode.EncodeSubmessage` | Santa I Wish/Pods/nanopb/pb_encode.c:682-730 | length prefix and body from the two passes; the error for a size that changed between them never arises |
| `PbEncode.EncodeArray` | Santa I Wish/Pods/nanopb/pb_encode.c:126-211 | packed and unpacked arrays, the packed size computed in advance being the size then written |
| `PbEncode.PackedSize` | Santa I Wish/Pods/nanopb/pb_encode.c:148-171 | the size announced for a packed array is the length of its items |
| `PbEncode.EncodeField` | Santa I Wish/Pods/nanopb/pb_encode.c:307-392 | which fields are written, and how, for each rule of the table |
| `PbEncode.EncodeValue` | Santa I Wish/Pods/nanopb/pb_encode.c:810-870 | a string up to its NUL, a byte array that fits its field, an inline array of its exact size, a submessage with its length; anything else is an error |
| `PbEncode.EncodeScalar` | Santa I Wish/Pods/nanopb/pb_encode.c:734-808 | a sign-extended varint, a zigzag varint or a fixed width, by type; an unsupported storage width is an error |
| `PbEncode.EncodeVarint` | Santa I Wish/Pods/nanopb/pb_encode.c:574-594 | the loop over a ten-byte buffer writes the base 128 digits, least significant first |
| `PbEncode.EncodeSVarint` | Santa I Wish/Pods/nanopb/pb_encode.c:596-605 | the zigzag number is written as a varint |
| `PbEncode.EncodeFixed` | Santa I Wish/Pods/nanopb/pb_encode.c:607-633 | the bytes are written least significant first |
| `PbEncode.EncodeString` | Santa I Wish/Pods/nanopb/pb_encode.c:674-680 | the length and then the bytes |
| `PbEncode.CheckZero` | Santa I Wish/Pods/nanopb/pb_encode.c:215-303 | the recursive zero check, with its cursor over the submessage, computes the predicate the encoding is defined by |
| `PbEncode.ScanString` | Santa I Wish/Pods/nanopb/pb_encode.c:831-851 | the length of a string is the position of the first NUL, at most the buffer size |
| `PbEncode.OStream.Write` | Santa I Wish/Pods/nanopb/pb_encode.c:101-122 | a write appends all its bytes or none; on a sizing stream only the count grows |
| `PbDecode.Decode` | Santa I Wish/Pods/nanopb/pb_decode.c:1051-1063 | pb_decode initialises the message, and returns what the specification of decoding returns, leaving the stream where it says |
| `PbDecode.DecodeNoinit` | Santa I Wish/Pods/nanopb/pb_decode.c:901-1049 | the loop with its cursor, its two words of required fields and its fixed-count counter refines the specification: same success, same message, same bytes left |
| `PbDecode.DecodeStep` | Santa I Wish/Pods/nanopb/pb_decode.c:921-998 | one turn of the loop: end of message, failure, an unknown field skipped, or a known field decoded |
| `PbDecode.DecodeKnown` | Santa I Wish/Pods/nanopb/pb_decode.c:964-996 | the fixed-count check, the required-field bit, and the field |
| `PbDecode.CheckComplete` | Santa I Wish/Pods/nanopb/pb_decode.c:1001-1046 | the checks after the loop hold if and only if the last fixed-count array is complete and all required fields were seen |
| `PbDecode.CountRequired` | Santa I Wish/Pods/nanopb/pb_decode.c:1015-1025 | the number of required fields checked, at most 64 |
| `PbDecode.DecodeField` | Santa I Wish/Pods/nanopb/pb_decode.c:401-475 | the destination is updated for each rule of the table; a full array or a bad value is an error |
| `PbDecode.DecodeRepeated` | Santa I Wish/Pods/nanopb/pb_decode.c:424-459 | packed run or single entry, with the count after it |
| `PbDecode.DecodePacked` | Santa I Wish/Pods/nanopb/pb_decode.c:431-443 | the loop over the substream fills entries until it is empty, or fails when the array is full |
| `PbDecode.DecodeSubmessage` | Santa I Wish/Pods/nanopb/pb_decode.c:1463-1485 | a submessage is decoded in its own substream, merged into what was there |
| `PbDecode.MakeSubstream` | Santa I Wish/Pods/nanopb/pb_decode.c:367-380 | the substream and what remains behind it make up the bytes of the parent |
| `PbDecode.CloseSubstream` | Santa I Wish/Pods/nanopb/pb_decode.c:382-395 | the parent continues behind the substream even if the substream was not read to its end |
| `PbDecode.DecodeScalar` | Santa I Wish/Pods/nanopb/pb_decode.c:1289-1389 | values that do not fit their storage are refused |
| `PbDecode.DecodeVarint` | Santa I Wish/Pods/nanopb/pb_decode.c:250-271 | ten bytes at most, and the bits shifted past 64 dropped |
| `PbDecode.DecodeVarint32Eof` | Santa I Wish/Pods/nanopb/pb_decode.c:182-242 | the overflow rules at and behind bit 32, and the end-of-stream flag on an empty stream |
| `PbDecode.DecodeTag` | Santa I Wish/Pods/nanopb/pb_decode.c:293-314 | a tag, the end of the message (no bytes, or a zero tag word), or an error |
| `PbDecode.Skip` | Santa I Wish/Pods/nanopb/pb_decode.c:316-326 | a field of each wire type is skipped as the specification of SkipExactly says |
| `PbDecode.SetToDefaults` | Santa I Wish/Pods/nanopb/pb_decode.c:812-899 | the message holds the default of every entry; of a fixed-count array, the first word is zero and the rest stays as the memory was |
| `PbDecode.IStream.ReadBytes` | Santa I Wish/Pods/nanopb/pb_decode.c:100-134 | all the bytes asked for or none |
| `ReplayWindow.ReadState.ShouldDiscard` | Santa I Wish/Pods/BoringSSL-GRPC/ssl/dtls_record.cc:140-153 | a number is refused if and only if it was recorded before or lies at least 64 below the maximum |
| `ReplayWindow.ReadState.Record` | Santa I Wish/Pods/BoringSSL-GRPC/ssl/dtls_record.cc:155-175 | exactly the number is added to what was recorded, unless it is stale; the 64-bit map keeps mirroring the set |
| `ReplayWindow.ReadState.Open` | Santa I Wish/Pods/BoringSSL-GRPC/ssl/dtls_record.cc:177-270 | accepting a record appends one (epoch, number) pair to the log that was not in it; nothing else changes it, and every other outcome is determined |
| `DtlsRecord.ParsesExactly` | Santa I Wish/Pods/BoringSSL-GRPC/ssl/dtls_record.cc:190-205 | a packet is looked at if and only if a record with a body of at most 16704 bytes stands in front of it, byte for byte |
| `DtlsRecord.TakenExactly` | Santa I Wish/Pods/BoringSSL-GRPC/ssl/dtls_record.cc:225-268 | a record is taken if and only if its epoch is the current one, its number was not seen and is less than 64 behind the latest, and it decrypts to at most 16384 bytes; alerts and oversized records apart |
| `DtlsRecord.NumberIs` | Santa I Wish/Pods/BoringSSL-GRPC/ssl/dtls_record.cc:225-226 | the eight bytes of the sequence number, the first weighing most, and the epoch in the first two |
| `DtlsRecord.TakeOnce` | Santa I Wish/Pods/BoringSSL-GRPC/ssl/dtls_record.cc:177-270 | a fresh record that decrypts is taken, in whatever order records arrive, and its repetition is discarded |
| `ReplayWindow.ReadState.SetReadState` | Santa I Wish/Pods/BoringSSL-GRPC/ssl/dtls_method.cc:81-95 | refused while handshake data is left over; otherwise the epoch is one higher and the window empty |
| `ReplayWindow.SlideMirrors` | Santa I Wish/Pods/BoringSSL-GRPC/ssl/dtls_record.cc:155-175 | shifting the map keeps it equal to the set of recorded numbers in the window |
| `ReplayWindow.AcceptFresh` | Santa I Wish/Pods/BoringSSL-GRPC/ssl/dtls_record.cc:225-259 | accepting an unrecorded number keeps the log free of repetitions as long as fewer than 2^16 epochs lie between two entries |
| `ReplayWindow.EpochWrapReplay` | Santa I Wish/Pods/BoringSSL-GRPC/ssl/dtls_method.cc:81-95 | with 2^16 key changes in between the same record is accepted twice |
| `ReplayWindow.ToU64` | Santa I Wish/Pods/BoringSSL-GRPC/ssl/dtls_record.cc:128-138 | the accumulating loop reads a big-endian number |
| `Reassembly.LooksCompleteIff` | Santa I Wish/Pods/BoringSSL-GRPC/ssl/d1_both.cc:236-251 | the completeness test on the mask holds if and only if every byte of the message was marked |
| `Reassembly.HmFragment.Mark` | Santa I Wish/Pods/BoringSSL-GRPC/ssl/d1_both.cc:211-251 | exactly the range is added to the bytes marked, or nothing if it is out of bounds; the mask is released exactly when all of the message is marked |
| `Reassembly.HmFragment.WriteRange` | Santa I Wish/Pods/BoringSSL-GRPC/ssl/d1_both.cc:224-235 | the first, the middle and the last byte of the mask take the bits of the range, all others stay |
| `Reassembly.WroteMarks` | Santa I Wish/Pods/BoringSSL-GRPC/ssl/d1_both.cc:203-235 | after the writes a bit is set if and only if it was or lies in the range |
| `Reassembly.HmFragment.Receive` | Santa I Wish/Pods/BoringSSL-GRPC/ssl/d1_both.cc:432-435 | the bytes land at their offset, and are marked |
| `Reassembly.HmFragment.constructor` | Santa I Wish/Pods/BoringSSL-GRPC/ssl/d1_both.cc:152-198 | an empty message of the announced length, with its header in front |
| `DtlsFlight.FlightTiling` | Santa I Wish/Pods/BoringSSL-GRPC/ssl/d1_both.cc:644-780 | the fragments written tile each message that the cursor has passed: contiguous, in order, complete; an empty message gives exactly one empty fragment |
| `DtlsFlight.LeadsForward` | Santa I Wish/Pods/BoringSSL-GRPC/ssl/d1_both.cc:739-780 | every sequence of fragments moves the cursor (outgoing_written, outgoing_offset) forward lexicographically |
| `DtlsFlight.LeadsTile` | Santa I Wish/Pods/BoringSSL-GRPC/ssl/d1_both.cc:644-737 | from any cursor position, what the fragments carry and what is left are what was left before |
| `HandshakeFragment.FragmentRoundTrip` | Santa I Wish/Pods/BoringSSL-GRPC/ssl/d1_both.cc:459-473 | a fragment header and body that were written are parsed back, whatever follows |
| `Headers.FragmentExactly` | Santa I Wish/Pods/BoringSSL-GRPC/ssl/d1_both.cc:459-473 | a fragment is read from exactly its bytes: type, length, number, offset and fragment length, most significant byte first, and the body |
| `Headers.RecordBytes` | Santa I Wish/Pods/BoringSSL-GRPC/ssl/d1_both.cc:644-737 | a record holds a ChangeCipherSpec, content type 20 and a one, or under content type 22 the fragment, byte for byte |
| `DtlsSend.Sender.SealNextMessage` | Santa I Wish/Pods/BoringSSL-GRPC/ssl/d1_both.cc:644-737 | the fragment is the next piece of the current message, at most the room given; the cursor moves past exactly that; without progress or on error it stays; which of the three happens is determined |
| `DtlsSend.FailsExactly` | Santa I Wish/Pods/BoringSSL-GRPC/ssl/d1_both.cc:644-737 | sealing a fragment is an error exactly when the keys of its epoch are gone, the AEAD fails, or, for a handshake message, its prefix is longer than its overhead and the piece does not fit behind it |
| `DtlsSend.SealsExactly` | Santa I Wish/Pods/BoringSSL-GRPC/ssl/d1_both.cc:644-737 | a fragment is sealed exactly when its keys are there, the AEAD works and a byte of it fits; it takes all that is left of the message or fills the room to the overhead |
| `DtlsSend.Sender.SealNextPacket` | Santa I Wish/Pods/BoringSSL-GRPC/ssl/d1_both.cc:739-780 | the packet holds at least one record and fits the room given; its records are the consecutive pieces from the old cursor to the new one; it ends only with the flight or when not one byte of the next entry fits; the error, and how many records were sealed before it, are determined; with healthy keys and enough room it succeeds |
| `DtlsSend.Sender.SendPacket` | Santa I Wish/Pods/BoringSSL-GRPC/ssl/d1_both.cc:795-817 | a failed write puts the cursor back; a packet that was written moves it strictly forward and fits the MTU; fragments are lost if and only if the first sealing error of the packet comes after at least one sealed record |
| `DtlsSend.Sender.SendFlight` | Santa I Wish/Pods/BoringSSL-GRPC/ssl/d1_both.cc:782-827 | what goes out is one record for each piece from the cursor on; on success the cursor is at the end, and unless fragments were lost before, all of the flight is in the packets; fragments are lost if and only if the cursor passed pieces that no packet holds; every packet fits the MTU; the flight goes out whenever keys, room and transport allow; the loop ends |
| `DtlsSend.LosesMessage` | Santa I Wish/Pods/BoringSSL-GRPC/ssl/d1_both.cc:782-827 | a run: sealing fails at the second of two messages, the next call reports success, and no packet holds the first message |
| `DtlsSend.Sender.FlushFlight` | Santa I Wish/Pods/BoringSSL-GRPC/ssl/d1_both.cc:829-834 | the flight is closed for further messages, and written as send_flight does |
| `DtlsSend.Sender.Retransmit` | Santa I Wish/Pods/BoringSSL-GRPC/ssl/d1_both.cc:836-845 | the flight is written again from its first message, whatever was lost before |
| `DtlsSend.Sender.AddOutgoing` | Santa I Wish/Pods/BoringSSL-GRPC/ssl/d1_both.cc:555-594 | at most seven messages in a flight; a finished flight is dropped first; the message is queued under its number |
| `DtlsSend.Sender.AddMessage` | Santa I Wish/Pods/BoringSSL-GRPC/ssl/d1_both.cc:511-598 | the message enters the queue exactly once, or the call fails for a body of 2^24 bytes or a full flight |
| `DtlsSend.Sender.AddChangeCipherSpec` | Santa I Wish/Pods/BoringSSL-GRPC/ssl/d1_both.cc:600-602 | a ChangeCipherSpec takes its place in the flight, and no message number |
| `DtlsSend.Sender.ClearOutgoing` | Santa I Wish/Pods/BoringSSL-GRPC/ssl/d1_both.cc:500-509 | the flight is empty and the cursor at its start; what was queued or written is untouched |
| `DtlsSend.Sender.UpdateMtu` | Santa I Wish/Pods/BoringSSL-GRPC/ssl/d1_both.cc:615-634 | the MTU afterwards is the one NewMtu says |
| `DtlsSend.NewMtu` | Santa I Wish/Pods/BoringSSL-GRPC/ssl/d1_both.cc:615-634 | an MTU below 228 is replaced by a usable answer of the transport or by 1472, unless asking is forbidden |
| `DtlsSend.RecordsOk` | Santa I Wish/Pods/BoringSSL-GRPC/ssl/d1_both.cc:644-737 | every record of a packet carries a true fragment of a queued message |
| `DtlsReceive.AcceptKeepsRing` | Santa I Wish/Pods/BoringSSL-GRPC/ssl/d1_both.cc:265-295 | after any fragment a filled slot i of the ring holds a number in [read_seq, read_seq+7) that is i modulo 7 |
| `DtlsReceive.SameSlotSameNumber` | Santa I Wish/Pods/BoringSSL-GRPC/ssl/d1_both.cc:274-278 | within the window a slot determines the message number: the assertion in the source cannot fail |
| `DtlsReceive.NextKeepsRing` | Santa I Wish/Pods/BoringSSL-GRPC/ssl/d1_both.cc:426-438 | taking a message out keeps the ring invariant for the next window |
| `DtlsReceiver.AcceptAt` | Santa I Wish/Pods/BoringSSL-GRPC/ssl/d1_both.cc:389-436 | an accepted fragment finds or makes its slot and is stored in it |
| `DtlsReceiver.Receiver.GetIncoming` | Santa I Wish/Pods/BoringSSL-GRPC/ssl/d1_both.cc:265-295 | the slot of the number, made if it was empty, or nothing when the number is outside the window or disagrees with the slot |
| `DtlsReceiver.Receiver.AcceptFragment` | Santa I Wish/Pods/BoringSSL-GRPC/ssl/d1_both.cc:363-436 | the ring of objects with masks refines the ring of values with sets of bytes |
| `DtlsReceiver.Receiver.StoreInto` | Santa I Wish/Pods/BoringSSL-GRPC/ssl/d1_both.cc:432-436 | the slot takes the bytes and their marks, all other slots stay |
| `DtlsReceiver.Receiver.OpenHandshake` | Santa I Wish/Pods/BoringSSL-GRPC/ssl/d1_both.cc:297-406 | a handshake record is taken apart fragment by fragment; other records are dropped, noted or refused |
| `DtlsReceiver.Receiver.GetMessage` | Santa I Wish/Pods/BoringSSL-GRPC/ssl/d1_both.cc:408-424 | the next message, with its header, if and only if it is complete |
| `DtlsReceiver.Receiver.NextMessage` | Santa I Wish/Pods/BoringSSL-GRPC/ssl/d1_both.cc:426-438 | the slot is emptied and the number moves on modulo 2^16 |
| `DtlsReceiver.Receiver.HasUnprocessedData` | Santa I Wish/Pods/BoringSSL-GRPC/ssl/d1_both.cc:440-457 | true if and only if a ChangeCipherSpec is pending or a slot is filled other than that of a message already handed out |
| `DtlsDelivery.DeliveredInOrder` | Santa I Wish/Pods/BoringSSL-GRPC/ssl/d1_both.cc:297-438 | over every run of queueing, sending at any cuts, loss, duplication, reordering and taking, the messages taken out are a prefix of those queued, in order, byte for byte, while fewer than 2^16 were queued |
| `DtlsArrival.FlightArrives` | Santa I Wish/Pods/BoringSSL-GRPC/ssl/d1_both.cc:297-438 | nothing that arrives is lost: from every reachable state, once the fragments that came, in any order, pieces, records and repetitions, cover the next messages, all of these can be taken out, byte for byte |
| `DtlsArrival.RecordArrives` | Santa I Wish/Pods/BoringSSL-GRPC/ssl/d1_both.cc:340-406 | every fragment of a record takes effect: each message has exactly the bytes that had come before and those in the record |
| `DtlsArrival.OpenedExactly` | Santa I Wish/Pods/BoringSSL-GRPC/ssl/d1_both.cc:340-406 | any record at all: its fragments are accepted one by one up to the first that is not, those before it take effect, and it is an error exactly when something is left |
| `DtlsArrival.RefusedAtAll` | Santa I Wish/Pods/BoringSSL-GRPC/ssl/d1_both.cc:363-430 | any fragment is an error exactly when it reaches past its message, the message is too long, it is not the next one in epoch 1 or is seven ahead, or it disagrees with the fragments before it |
| `DtlsArrival.WholeIsTaken` | Santa I Wish/Pods/BoringSSL-GRPC/ssl/d1_both.cc:408-438 | a message all of whose bytes have come is handed out, and the others in the window stay |
| `DtlsDelivery.StepKeeps` | Santa I Wish/Pods/BoringSSL-GRPC/ssl/d1_both.cc:297-438 | every step keeps every slot equal to the marked part of the queued message with its number |
| `DtlsDelivery.AcceptHolds` | Santa I Wish/Pods/BoringSSL-GRPC/ssl/d1_both.cc:363-436 | a true fragment leaves the slots true, whichever slot it falls into |
| `DtlsDelivery.CompleteIsRaw` | Santa I Wish/Pods/BoringSSL-GRPC/ssl/d1_both.cc:236-251 | a complete slot holds the message as it was queued, header included |
| `DtlsDelivery.TrueFragmentRefused` | Santa I Wish/Pods/BoringSSL-GRPC/ssl/d1_both.cc:363-404 | over every run, a fragment an honest sender wrote ends in an error if and only if its message is too long for the receiver, or is not the next one in epoch 1, or is exactly seven ahead of the next one; it never disagrees with its slot |
| `DtlsDelivery.WindowEdge` | Santa I Wish/Pods/BoringSSL-GRPC/ssl/d1_both.cc:380-387 | a run in which the two window guards differ: the fragment of the eighth message arrives before the first |
| `DtlsDelivery.NumbersWrap` | Santa I Wish/Pods/BoringSSL-GRPC/ssl/d1_both.cc:426-438 | a run with 2^16 messages in which a duplicate of the first is delivered a second time |
| `TlsOutbound.Conn.FlushBuffer` | Santa I Wish/Pods/BoringSSL-GRPC/ssl/ssl_buffer.cc:239-252 | the bytes accepted, the calls made and the result are those of the flush as a function of the memory, the window and the answers of the transport; conservation holds as long as the end of the buffer has not passed 2^16; on success the buffer is empty |
| `TlsOutbound.FlushInOrder` | Santa I Wish/Pods/BoringSSL-GRPC/ssl/ssl_buffer.cc:239-252 | after any partial writes, contents that end at 2^16 at most went out from the front, in order, and the rest is still there |
| `TlsOutbound.FlushSucceeds` | Santa I Wish/Pods/BoringSSL-GRPC/ssl/ssl_buffer.cc:239-252 | a flush succeeds when every call takes something, and fails only because a call did |
| `TlsOutbound.Conn.WritePending` | Santa I Wish/Pods/BoringSSL-GRPC/ssl/s3_pkt.cc:202-219 | a retry must match the pending write, and then only flushes; otherwise nothing happens |
| `TlsOutbound.Conn.MoveFlight` | Santa I Wish/Pods/BoringSSL-GRPC/ssl/s3_pkt.cc:247-273 | the pending flight moves in front of the new record into a buffer large enough for both, unless the room asked for reaches 2^16; up to 2^16 - 7 the end of the buffer stays within 16 bits, whatever the alignment |
| `TlsOutbound.Conn.StartRecord` | Santa I Wish/Pods/BoringSSL-GRPC/ssl/s3_pkt.cc:221-289 | one record is sealed behind the pending flight, and the pending write remembers it; it succeeds if and only if the buffer and not the data is empty, the room is below 2^16 and the sealing fits, and the result tells; up to 2^16 - 7, or when refused, the end of the buffer stays within 16 bits |
| `TlsOutbound.Conn.DoWrite` | Santa I Wish/Pods/BoringSSL-GRPC/ssl/s3_pkt.cc:221-289 | with a write pending nothing is sealed; otherwise exactly one record is, a success reports its length, and the transport got what a flush of the flight and the record yields; conservation holds if the room asked for is at most 2^16 - 7, or refused |
| `TlsRuns.FlightBefore` | Santa I Wish/Pods/BoringSSL-GRPC/ssl/s3_both.cc:135-165 | a connection with a pending flight of three records, for which a write asks for any given room from 2^16 - 6 to 2^16 - 1 |
| `TlsRuns.LosesBytes` | Santa I Wish/Pods/BoringSSL-GRPC/ssl/s3_pkt.cc:242-289 | for each room from 2^16 - 6 to 2^16 - 1: a run after which the bytes accepted are as many as were sealed, but other ones |
| `TlsOutbound.Conn.WriteRecords` | Santa I Wish/Pods/BoringSSL-GRPC/ssl/s3_pkt.cc:145-198 | exactly the data from where the last call stopped to where this one stops is sealed, in records within the fragment limit; a shorter retry is refused and forgets the count; when nothing but a transport that takes all or nothing can stop it, each call of the transport is one record |
| `TlsOutbound.Conn.WriteTurn` | Santa I Wish/Pods/BoringSSL-GRPC/ssl/s3_pkt.cc:165-198 | one turn of the loop keeps the account of what is sealed, and stops only for the transport when nothing else can fail |
| `TlsOutbound.Conn.WriteAppData` | Santa I Wish/Pods/BoringSSL-GRPC/ssl/s3_pkt.cc:129-198 | under retries that agree with what was sealed, finished writes report exactly the bytes sealed for them, in order, none repeated or skipped, if and only if no retry is shorter than what was counted; with a transport that takes something, sealings that succeed and room, all the data is written |
| `TlsOutbound.ShorterRetryRepeats` | Santa I Wish/Pods/BoringSSL-GRPC/ssl/s3_pkt.cc:143-157 | after a refused shorter retry, the next call with the whole data seals on from the length of the pending record, which is less than was sealed |
| `TlsRuns.RepeatsBytes` | Santa I Wish/Pods/BoringSSL-GRPC/ssl/s3_pkt.cc:143-157 | a run: of two records one goes out, a shorter retry is refused, and the retry with all of the data reports success after sealing the second half twice |
| `TlsOutbound.Conn.DispatchAlert` | Santa I Wish/Pods/BoringSSL-GRPC/ssl/s3_pkt.cc:405-424 | an alert goes through the same queue and disturbs neither conservation nor the pending application write; behind pending data of another type it is refused; in good health it is sealed, and only the transport can stop it |
| `TlsOutbound.Conn.AddRecordToFlight` | Santa I Wish/Pods/BoringSSL-GRPC/ssl/s3_both.cc:135-165 | a sealed record is appended to the pending flight, or nothing when the sealing fails; conservation holds |
| `TlsOutbound.Conn.AddMessage` | Santa I Wish/Pods/BoringSSL-GRPC/ssl/s3_both.cc:184-205 | a message is cut into full records and a last one, an empty message into one; they are sealed up to the first failure, which alone makes the call fail; no application data is touched |
| `TlsOutbound.ChunksExactly` | Santa I Wish/Pods/BoringSSL-GRPC/ssl/s3_both.cc:184-205 | the chunks are the message, all full but the last, which is empty only for an empty message |
| `TlsOutbound.Conn.FlushFlight` | Santa I Wish/Pods/BoringSSL-GRPC/ssl/s3_both.cc:231-279 | the write buffer goes out before the flight; on success everything sealed was accepted, in order, unless the end of the buffer has passed 2^16; unless writing is shut down or the flight too long it succeeds if the transport takes something at every call and flushes |
| `TlsOutbound.SealedJoin` | Santa I Wish/Pods/BoringSSL-GRPC/ssl/s3_pkt.cc:165-198 | consecutive calls seal consecutive pieces |
| `SslBuffer.SSLBuffer.EnsureCap` | Santa I Wish/Pods/BoringSSL-GRPC/ssl/ssl_buffer.cc:47-81 | contents survive growing and realigning; refused from 2^16 on, without a change |
| `SslBuffer.SSLBuffer.Write` | Santa I Wish/Pods/BoringSSL-GRPC/ssl/ssl_buffer.cc:83-88 | what was written is appended |
| `SslBuffer.SSLBuffer.Consume` | Santa I Wish/Pods/BoringSSL-GRPC/ssl/ssl_buffer.cc:90-97 | the first bytes are gone; the rest stays if the offset stays within 16 bits or nothing is left, and otherwise is replaced by what lies 2^16 in front of it |
| `SslBuffer.WrapsExactly` | Santa I Wish/Pods/BoringSSL-GRPC/ssl/ssl_buffer.cc:90-97 | some consumption puts other bytes in the place of the rest, if and only if the contents end behind 2^16 |
| `SslBuffer.SSLBuffer.DiscardConsumed` | Santa I Wish/Pods/BoringSSL-GRPC/ssl/ssl_buffer.cc:99-103 | contents are untouched |
| `SslBuffer.OffsetWraps` | Santa I Wish/Pods/BoringSSL-GRPC/ssl/ssl_buffer.cc:90-97 | a concrete buffer at which offset_ wraps and the contents become other bytes |
| `TlsMessages.MessageRoundTrip` | Santa I Wish/Pods/BoringSSL-GRPC/ssl/s3_both.cc:167-205 | a handshake message as the sender lays it out is parsed back, whatever follows it |
| `Headers.MessageExactly` | Santa I Wish/Pods/BoringSSL-GRPC/ssl/s3_both.cc:399-425 | a message stands in front of the buffer exactly when its type, its length in three bytes, most significant first, and its body do |
| `Headers.NeedsExactly` | Santa I Wish/Pods/BoringSSL-GRPC/ssl/s3_both.cc:399-425 | an incomplete message asks for exactly its four header bytes, or for all of it |
| `TlsMessages.MessageIsPut` | Santa I Wish/Pods/BoringSSL-GRPC/ssl/s3_both.cc:399-425 | only such messages parse |
| `TlsMessages.MessagesInFront` | Santa I Wish/Pods/BoringSSL-GRPC/ssl/s3_both.cc:399-425 | messages in front of a stream are its first messages: no other division of the stream exists |
| `TlsMessages.MessagesGrow` | Santa I Wish/Pods/BoringSSL-GRPC/ssl/s3_both.cc:474-560 | more bytes only add messages, so how the stream was cut into records does not matter |
| `TlsMessages.MessagesRebuild` | Santa I Wish/Pods/BoringSSL-GRPC/ssl/s3_both.cc:399-425 | a stream is its complete messages followed by an incomplete one |
| `TlsMessages.DeliveredInOrder` | Santa I Wish/Pods/BoringSSL-GRPC/ssl/s3_both.cc:427-583 | whatever records the sender cut its messages into, the messages taken out after some of them are a prefix of those queued, and all of them after the last |
| `TlsDelivery.ReceiveAll` | Santa I Wish/Pods/BoringSSL-GRPC/ssl/s3_both.cc:427-583 | over the object that buffers them: however a sender cuts its messages into records, once the last record has been opened all of them have been taken out, in order, and nothing is left |
| `TlsInbound.Inbound.GetMessage` | Santa I Wish/Pods/BoringSSL-GRPC/ssl/s3_both.cc:427-439 | the message returned is the next one of the stream that has arrived |
| `TlsInbound.Inbound.CanAccept` | Santa I Wish/Pods/BoringSSL-GRPC/ssl/s3_both.cc:441-459 | data is accepted if and only if no complete message waits and the next one is within the limit; the alert tells which |
| `TlsInbound.Inbound.HasUnprocessed` | Santa I Wish/Pods/BoringSSL-GRPC/ssl/s3_both.cc:461-472 | false if and only if the stream stands between two messages |
| `TlsInbound.Inbound.OpenRecord` | Santa I Wish/Pods/BoringSSL-GRPC/ssl/tls_record.cc:203-371 | a record is opened if and only if the stream is not closed, no complete message waits and the next is within the limit, the record decrypts to at most 16384 bytes, and it is a handshake record or the stream stands between two messages; every other outcome and its alert is determined |
| `TlsInbound.Inbound.OpenHandshake` | Santa I Wish/Pods/BoringSSL-GRPC/ssl/s3_both.cc:474-560 | it succeeds if and only if such a record is a handshake record, and for a server before its first hello the input has five bytes and is neither HTTP nor a V2ClientHello; then exactly its body is appended; every other outcome is determined |
| `TlsInbound.MixUps` | Santa I Wish/Pods/BoringSSL-GRPC/ssl/s3_both.cc:474-560 | the HTTP methods byte by byte; no TLS record is mistaken for one, or for a V2ClientHello |
| `TlsInbound.Inbound.OpenAppData` | Santa I Wish/Pods/BoringSSL-GRPC/ssl/s3_pkt.cc:291-349 | application data comes out if and only if a record of it that is not empty is opened between messages; a post-handshake message joins the stream, and a server below TLS 1.3 refuses renegotiation; every other outcome is determined |
| `TlsInbound.Inbound.NextMessage` | Santa I Wish/Pods/BoringSSL-GRPC/ssl/s3_both.cc:562-583 | the first message leaves the buffer and the rest stays; messages taken so far are the first ones of the stream |
| `TlsInbound.Inbound.SetReadState` | Santa I Wish/Pods/BoringSSL-GRPC/ssl/tls_method.cc:84-96 | new read keys are installed if and only if the stream stands between two messages |
| `TlsInbound.NoMessageAcrossKeys` | Santa I Wish/Pods/BoringSSL-GRPC/ssl/tls_method.cc:84-96 | no message is read under two keys: before and after each key change the stream divides into messages independently |
| `Handshake.HandshakeSafety` | Santa I Wish/Pods/BoringSSL-GRPC/ssl/handshake.cc:491-628 | over every run from the start, with any messages and any blocking: below TLS 1.3 a side that is done has sent one Finished, flushed, under new write keys, and accepted one under new read keys, with the peer authenticated as its role demands |
| `HandshakeRuns.BothComplete` | Santa I Wish/Pods/BoringSSL-GRPC/ssl/handshake.cc:491-628 | a client and a server that allow the same handshake, full or abbreviated, with or without CertificateStatus, ServerKeyExchange, CertificateRequest, client certificate, ticket, NextProto and ChannelID, both complete it: each has read exactly what the other has sent, in order |
| `HandshakeRuns.GoodRunsEnd` | Santa I Wish/Pods/BoringSSL-GRPC/ssl/handshake.cc:491-628 | a run in which the expected message comes, nothing fails and every wait is answered never ends in an error, goes on until the handshake is done, and is done after at most 44 events |
| `HandshakeFlow.ClientTrack` | Santa I Wish/Pods/BoringSSL-GRPC/ssl/handshake_client.cc:535-1789 | with the next message of the server and nothing failing, every step of the client goes on or names its wait, and has read and sent what its place in the handshake says |
| `HandshakeFlow.ServerTrack` | Santa I Wish/Pods/BoringSSL-GRPC/ssl/handshake_server.cc:426-1621 | the same of every step of the server |
| `HandshakeRefusal.ClientWaits` | Santa I Wish/Pods/BoringSSL-GRPC/ssl/handshake_client.cc:535-1789 | exactly when a step of the client waits, and for what, when it is an error, and when it goes on; a step that does not go on changes nothing |
| `HandshakeRefusal.ServerWaits` | Santa I Wish/Pods/BoringSSL-GRPC/ssl/handshake_server.cc:426-1621 | exactly when a step of the server waits, and for what, when it is an error, and when it goes on |
| `HandshakeEvidence.SafeOnEvidence` | Santa I Wish/Pods/BoringSSL-GRPC/ssl/handshake.cc:380-476 | the same in terms of the events alone: the run contains the sending of Finished, a ChangeCipherSpec and after it a Finished that matched; for a full client handshake with a certificate cipher the certificate, its verification and the ServerKeyExchange signature; for a server that read a client certificate its verification and a CertificateVerify that verified |
| `HandshakeEvidence.MarkComesFrom` | Santa I Wish/Pods/BoringSSL-GRPC/ssl/handshake_client.cc:535-1705 | a fact about the run appears only in the state that handles it and with the input that justifies it |
| `HandshakeEvidence.FinishedAfterCcs` | Santa I Wish/Pods/BoringSSL-GRPC/ssl/handshake.cc:380-429 | a Finished is accepted only after the ChangeCipherSpec |
| `HandshakeEvidence.CertStays` | Santa I Wish/Pods/BoringSSL-GRPC/ssl/handshake_server.cc:949-1040 | once the server has read a client certificate, that fact stays on record for the rest of the run |
| `Handshake.NeverReentered` | Santa I Wish/Pods/BoringSSL-GRPC/ssl/handshake.cc:491-628 | a state that was left is never entered again |
| `Handshake.RunDescends` | Santa I Wish/Pods/BoringSSL-GRPC/ssl/handshake.cc:491-628 | along a run the rank of the state never rises, and falls whenever the state changes |
| `Handshake.NextKeeps` | Santa I Wish/Pods/BoringSSL-GRPC/ssl/handshake.cc:491-628 | one event keeps the invariant; a state changes only for one of lower rank, and the session stays once it is settled |
| `Handshake.ErrorIsFinal` | Santa I Wish/Pods/BoringSSL-GRPC/ssl/handshake.cc:491-500 | once the handshake has failed, no event changes anything |
| `Handshake.Handshake.DoHandshake` | Santa I Wish/Pods/BoringSSL-GRPC/ssl/handshake_client.cc:1707-1789 | the dispatch loop ends: in the last state or with something to wait for |
| `Handshake.Handshake.Run` | Santa I Wish/Pods/BoringSSL-GRPC/ssl/handshake.cc:491-628 | a call replays the events of its trace up to the one at which it stops, and says why it stops: 1 only when done (or for an early return), -1 for a wait that was not answered and for ever after an error, without a change of state |
| `Handshake.StepMoves` | Santa I Wish/Pods/BoringSSL-GRPC/ssl/handshake_client.cc:1707-1789 | a step that leaves nothing to wait for has lowered the rank |
| `HandshakeClient.StepGood` | Santa I Wish/Pods/BoringSSL-GRPC/ssl/handshake_client.cc:1707-1789 | every step of the client keeps the invariant, lowers the rank if it changes the state, and otherwise changes nothing |
| `HandshakeClient.DoneIsSafe` | Santa I Wish/Pods/BoringSSL-GRPC/ssl/handshake_client.cc:1674-1705 | what a finished client has been through, including the signature of any ServerKeyExchange |
| `HandshakeServer.StepGood` | Santa I Wish/Pods/BoringSSL-GRPC/ssl/handshake_server.cc:1539-1621 | every step of the server keeps the invariant, lowers the rank if it changes the state, and otherwise changes nothing |
| `HandshakeServer.DoneIsSafe` | Santa I Wish/Pods/BoringSSL-GRPC/ssl/handshake_server.cc:1511-1537 | what a finished server has been through; with a client certificate also CertificateVerify |
| `CipherChoice.ChooseCipher` | Santa I Wish/Pods/BoringSSL-GRPC/ssl/handshake_server.cc:357-424 | with server preference, the eligible cipher with the smallest client index in the first server group that has one; otherwise the client's first eligible cipher; null if and only if none is eligible |
| `CipherChoice.Choose` | Santa I Wish/Pods/BoringSSL-GRPC/ssl/handshake_server.cc:384-424 | the loop over the list with group_min finds the best cipher of the first group with an eligible one that ends |
| `CipherChoice.CompatibleExactly` | Santa I Wish/Pods/BoringSSL-GRPC/ssl/handshake_server.cc:392-396 | a cipher is compatible if and only if the version lies in its range and some key exchange and some authentication are in both masks |
| `CipherChoice.GroupEnds` | Santa I Wish/Pods/BoringSSL-GRPC/ssl/handshake_server.cc:401-420 | at the end of a group the best cipher so far is the best of all |
| `Refcount.LockFreeRefinesLocked` | Santa I Wish/Pods/BoringSSL-GRPC/crypto/refcount_c11.c:37-65 | for any number of threads, any interleaving and spurious failures: the log of effects is a run of the locked counter, each call has exactly one effect inside its own duration, every effect is that of a call, and each call returns what the locked operation returns there |
| `Refcount.AloneReturns` | Santa I Wish/Pods/BoringSSL-GRPC/crypto/refcount_c11.c:37-65 | a call left to itself returns within two turns of its loop |
| `Refcount.FailsForAReason` | Santa I Wish/Pods/BoringSSL-GRPC/crypto/refcount_c11.c:37-65 | a turn of the loop is repeated only when the count has changed since it was read, or the swap failed for no reason |
| `Refcount.AbortsExactly` | Santa I Wish/Pods/BoringSSL-GRPC/crypto/refcount_lock.c:37-51 | a release aborts if and only if the count is zero |
| `Refcount.CountIsOutstanding` | Santa I Wish/Pods/BoringSSL-GRPC/crypto/refcount_lock.c:29-51 | while never saturated, the count is the number of outstanding references |
| `Refcount.LastReleaseReturnsOne` | Santa I Wish/Pods/BoringSSL-GRPC/crypto/refcount_lock.c:37-51 | while never saturated, a release returns one if and only if it is the last operation and leaves no reference; no release aborts |
| `Refcount.OneThreadIsLast` | Santa I Wish/Pods/BoringSSL-GRPC/crypto/refcount_c11.c:49-65 | of all finished calls of all threads at most one is told that it released the last reference, exactly the one whose effect is last |
| `Refcount.SaturationSticks` | Santa I Wish/Pods/BoringSSL-GRPC/crypto/refcount_lock.c:29-51 | once at the maximum the count stays there, and no release returns one |
| `Refcount.SwapKeeps` | Santa I Wish/Pods/BoringSSL-GRPC/crypto/refcount_c11.c:37-65 | a successful compare-and-swap is one locked operation |
| `Refcount.SettledIsLocked` | Santa I Wish/Pods/BoringSSL-GRPC/crypto/refcount_c11.c:37-65 | leaving the loop without a swap is the locked operation at the value seen |
| `SessionRoundTrip.SessionParsesBack` | Santa I Wish/Pods/BoringSSL-GRPC/ssl/ssl_asn1.cc:527-757 | for every session the C types allow and whatever follows: parsing what was printed gives the session back, normalised, and leaves what follows, if and only if the version and cipher are known, verify_result is not negative, and the certificates written are a non-empty leaf and single DER elements |
| `SessionExact.ParsedIsSpelled` | Santa I Wish/Pods/BoringSSL-GRPC/ssl/ssl_asn1.cc:527-757 | whatever bytes are parsed spell the session they give: one SEQUENCE of the version 1, the wire version, cipher, session ID, key, and the tagged fields, each at most once, in order and no others, byte for byte |
| `SessionExact.SpelledIsParsed` | Santa I Wish/Pods/BoringSSL-GRPC/ssl/ssl_asn1.cc:527-757 | and whatever spells a session is parsed as that session: an absent field stands for its default, a present one may say it, and behind the times other bytes may stand |
| `SessionFormat.SessionLayout` | Santa I Wish/Pods/BoringSSL-GRPC/ssl/ssl_asn1.cc:200-399 | the bytes of a printed session, element by element, as the ASN.1 structure at the head of the file lays them out, with literal identifiers |
| `SessionFormat.VersionsParseBack` | Santa I Wish/Pods/BoringSSL-GRPC/ssl/ssl_versions.cc:28-53 | among printed sessions with a known cipher and good certificates, exactly those of SSL 3.0, TLS 1.0 to 1.2, draft 23 of TLS 1.3, and DTLS 1.0 and 1.2 come back |
| `SessionFormat.WireVersions` | Santa I Wish/Pods/BoringSSL-GRPC/ssl/ssl_versions.cc:28-53 | the seven wire versions, and the protocol version each stands for |
| `SessionFormat.ParsedFits` | Santa I Wish/Pods/BoringSSL-GRPC/ssl/ssl_asn1.cc:527-757 | whatever is parsed fits its C types |
| `SessionFormat.ParsedAgain` | Santa I Wish/Pods/BoringSSL-GRPC/ssl/ssl_asn1.cc:527-757 | what was parsed, printed again, is parsed again |
| `SessionRoundTrip.HeadRoundTrip` | Santa I Wish/Pods/BoringSSL-GRPC/ssl/ssl_asn1.cc:535-597 | version, cipher, identifiers, key and times come back, if and only if the version stands for a protocol version and the cipher is known |
| `SessionRoundTrip.FirstRoundTrip` | Santa I Wish/Pods/BoringSSL-GRPC/ssl/ssl_asn1.cc:599-634 | the fields up to the ticket come back, for every combination of those present; an empty peer certificate and a negative verify_result are refused |
| `SessionRoundTrip.SecondRoundTrip` | Santa I Wish/Pods/BoringSSL-GRPC/ssl/ssl_asn1.cc:636-672 | the fields up to the certificate chain come back; an empty chain is refused |
| `SessionRoundTrip.ThirdRoundTrip` | Santa I Wish/Pods/BoringSSL-GRPC/ssl/ssl_asn1.cc:700-752 | the last fields come back and nothing is left over; an omitted auth_timeout is the timeout |
| `SessionRoundTrip.CertsRoundTrip` | Santa I Wish/Pods/BoringSSL-GRPC/ssl/ssl_asn1.cc:672-698 | the certificate list comes back if and only if each entry is one element |
| `CertChain.ChainRoundTrip` | Santa I Wish/Pods/BoringSSL-GRPC/ssl/ssl_asn1.cc:682-694 | certificates written one after the other are read back as they were if and only if each is a single DER element |
| `CertChain.ElementAt` | Santa I Wish/Pods/BoringSSL-GRPC/crypto/bytestring/cbs.c:338-342 | an element is read the same whatever follows it |
| `Der.ElementRoundTrip` | Santa I Wish/Pods/BoringSSL-GRPC/crypto/bytestring/cbs.c:243-371 | an element that was written is read back with its tag and contents, and no other tag is seen in its place |
| `DerExact.ElementExact` | Santa I Wish/Pods/BoringSSL-GRPC/crypto/bytestring/cbs.c:243-371 | an element is read from exactly the bytes that are written for it: DER has one encoding |
| `DerExact.IntegerExact` | Santa I Wish/Pods/BoringSSL-GRPC/crypto/bytestring/cbs.c:391-426 | a number is read from exactly its shortest form |
| `Der.TagRoundTrip` | Santa I Wish/Pods/BoringSSL-GRPC/crypto/bytestring/cbs.c:210-241 | identifier octets come back, in the low and the high form |
| `Der.LengthRoundTrip` | Santa I Wish/Pods/BoringSSL-GRPC/crypto/bytestring/cbb.c:199-283 | length octets come back, and are minimal |
| `Der.IntegerRoundTrip` | Santa I Wish/Pods/BoringSSL-GRPC/crypto/bytestring/cbs.c:391-426 | every 64-bit number comes back, from at most nine bytes |
| `Der.Base128RoundTrip` | Santa I Wish/Pods/BoringSSL-GRPC/crypto/bytestring/cbb.c:336-357 | a base 128 number comes back |
| `SslAsn1.ToBytesFull` | Santa I Wish/Pods/BoringSSL-GRPC/ssl/ssl_asn1.cc:200-399 | the builder, filled field by field, ends with exactly the printed session, or with an error when there is none |
| `SslAsn1.SessionParse` | Santa I Wish/Pods/BoringSSL-GRPC/ssl/ssl_asn1.cc:527-757 | the cursor, advanced field by field, fails exactly when the specification does, and otherwise fills the session with its value and stops where it stops |
| `SslAsn1.AddField` | Santa I Wish/Pods/BoringSSL-GRPC/ssl/ssl_asn1.cc:221-396 | a field is an explicit tag around its value, behind what was written before |
| `SslAsn1.ParseCertsInto` | Santa I Wish/Pods/BoringSSL-GRPC/ssl/ssl_asn1.cc:672-698 | the loop over the chain collects the certificates in order |
| `SslAsn1.JoinChain` | Santa I Wish/Pods/BoringSSL-GRPC/ssl/ssl_asn1.cc:313-325 | the certificates behind the first are written one after the other |
| `Cbb.Builder.Close` | Santa I Wish/Pods/BoringSSL-GRPC/crypto/bytestring/cbb.c:199-283 | closing a child leaves in the buffer the element with its contents, the length moved up if it needs more than one byte |
| `Cbb.Builder.AddUint64` | Santa I Wish/Pods/BoringSSL-GRPC/crypto/bytestring/cbb.c:473-506 | the eight-byte loop that skips leading zeros writes the minimal non-negative INTEGER |
| `Cbs.Cursor.GetAnyAsn1` | Santa I Wish/Pods/BoringSSL-GRPC/crypto/bytestring/cbs.c:243-336 | one DER element is read, or the cursor stays where it was |
| `Cbs.Cursor.GetUint64` | Santa I Wish/Pods/BoringSSL-GRPC/crypto/bytestring/cbs.c:391-426 | negative, non-minimal and overlong numbers are refused |
| `Cbs.ParseBase128Integer` | Santa I Wish/Pods/BoringSSL-GRPC/crypto/bytestring/cbs.c:186-208 | non-minimal and overflowing numbers are refused |
| `Cbs.Cursor.GetOptionalUint` | Santa I Wish/Pods/BoringSSL-GRPC/crypto/bytestring/cbs.c:483-499 | an absent field gives the default, and a present one must be in range and fill its field |
| `ByteString.GetPutBig` | Santa I Wish/Pods/BoringSSL-GRPC/crypto/bytestring/cbs.c:95-108 | a big-endian number that was written is read back |
| `PbEncode.EncodeTag` | Santa I Wish/Pods/nanopb/pb_encode.c:635-639 | the tag word is the field number and the wire type in one varint |
| `PbEncode.EncodeTagForField` | Santa I Wish/Pods/nanopb/pb_encode.c:641-672 | the wire type follows from the field type, and an extension placeholder is an error; which types those are on the wire is MessageOnWire |
| `PbEncode.EncodeTagged` | Santa I Wish/Pods/nanopb/pb_encode.c:307-392 | tag and value together, as the three single-value rules write them |
| `PbEncode.EncodePacked` | Santa I Wish/Pods/nanopb/pb_encode.c:158-186 | the same loop over the items serves the sizing pass and the writing pass |
| `PbEncode.EncodeUnpacked` | Santa I Wish/Pods/nanopb/pb_encode.c:188-208 | every item is written behind its own tag, in order |
| `PbEncode.CheckAllZero` | Santa I Wish/Pods/nanopb/pb_encode.c:286-296 | the walk over a submessage stops at its first non-zero field |
| `PbEncode.OStream.FromBuffer` | Santa I Wish/Pods/nanopb/pb_encode.c:84-99 | an empty stream limited to the buffer |
| `PbEncode.OStream.Sub` | Santa I Wish/Pods/nanopb/pb_encode.c:707-718 | a substream limited to the announced size |
| `PbDecode.IStream.ReadByte` | Santa I Wish/Pods/nanopb/pb_decode.c:136-152 | the next byte, or an error and nothing left |
| `PbDecode.IStream.FromBuffer` | Santa I Wish/Pods/nanopb/pb_decode.c:154-176 | the stream holds exactly the buffer |
| `PbDecode.SkipVarintField` | Santa I Wish/Pods/nanopb/pb_decode.c:273-282 | bytes are skipped up to the first one below 0x80 |
| `PbDecode.ReadString` | Santa I Wish/Pods/nanopb/pb_decode.c:284-291 | a length and that many bytes, or an error |
| `PbDecode.DecodeValue` | Santa I Wish/Pods/nanopb/pb_decode.c:1289-1508 | the value of each type, and exactly its bytes consumed |
| `PbDecode.NoteSeen` | Santa I Wish/Pods/nanopb/pb_decode.c:988-993 | the bit of a required field is set in its word, and only for the first 64 |
| `DecodeSpec.DefaultMessage` | Santa I Wish/Pods/nanopb/pb_decode.c:884-899 | entry by entry the default of the field, and zeros in what the first word of a fixed-count array covers |
| `EncodeSpec.StrLen` | Santa I Wish/Pods/nanopb/pb_encode.c:839-848 | the bytes before the length found are not NUL, and the next one is, unless the buffer or the limit ends |
| `UnknownFields.SkipMore` | Santa I Wish/Pods/nanopb/pb_decode.c:316-326 | skipping reads the same field whatever bytes follow it |
| `DtlsSend.Sender.SetWriteState` | Santa I Wish/Pods/BoringSSL-GRPC/ssl/dtls_method.cc:97-112 | the epoch counts up modulo 2^16 |
| `DtlsReceive.Next` | Santa I Wish/Pods/BoringSSL-GRPC/ssl/d1_both.cc:426-438 | the ring after a message was taken out satisfies the ring invariant |
| `DtlsReceive.OpenRecord` | Santa I Wish/Pods/BoringSSL-GRPC/ssl/d1_both.cc:340-406 | whatever a record holds, the ring invariant and the number of the next message stay |
| `TlsOutbound.Conn.Seal` | Santa I Wish/Pods/BoringSSL-GRPC/ssl/s3_pkt.cc:274-281 | a sealed record fits the room it was given, stays within the bounded expansion, and enters the log once |
| `TlsOutbound.Conn.Took` | Santa I Wish/Pods/BoringSSL-GRPC/ssl/ssl_buffer.cc:239-252 | exactly the first bytes of the contents are counted as taken, and leave the buffer; the offset moves on in 16 bits |
| `TlsOutbound.Conn.SealIntoBuffer` | Santa I Wish/Pods/BoringSSL-GRPC/ssl/s3_pkt.cc:274-287 | a record goes behind the contents of the buffer; it fails exactly when the sealing does or does not fit |
| `TlsOutbound.Conn.WriteOne` | Santa I Wish/Pods/BoringSSL-GRPC/ssl/s3_pkt.cc:172-198 | one turn of the write loop seals exactly the next piece, or nothing when a retry was pending |
| `TlsOutbound.Conn.AddChunk` | Santa I Wish/Pods/BoringSSL-GRPC/ssl/s3_both.cc:189-197 | one chunk becomes one handshake record behind the flight, exactly when its sealing fits |
| `SslBuffer.SSLBuffer.Clear` | Santa I Wish/Pods/BoringSSL-GRPC/ssl/ssl_buffer.cc:39-45 | the buffer is empty and released |
| `TlsInbound.Inbound.Append` | Santa I Wish/Pods/BoringSSL-GRPC/ssl/s3_both.cc:553-557 | the body joins the stream; earlier key changes stay between messages |
| `TlsInbound.Inbound.OnHandshakeComplete` | Santa I Wish/Pods/BoringSSL-GRPC/ssl/tls_method.cc:70-82 | an empty buffer is released, a filled one kept |
| `Handshake.Handshake.Resolve` | Santa I Wish/Pods/BoringSSL-GRPC/ssl/handshake.cc:491-615 | an answer to a wait changes nothing but the wait |
| `Cbb.Builder.AddBytes` | Santa I Wish/Pods/BoringSSL-GRPC/crypto/bytestring/cbb.c:392-401 | the bytes are appended, unless an error came before |
| `Cbb.Builder.AddAsn1` | Santa I Wish/Pods/BoringSSL-GRPC/crypto/bytestring/cbb.c:359-390 | the tag and a place for the length are appended |
| `Cbb.Builder.AddElement` | Santa I Wish/Pods/BoringSSL-GRPC/crypto/bytestring/cbb.c:508-517 | a whole element is appended, or the error is set when it is too long |
| `Cbb.Builder.AddBool` | Santa I Wish/Pods/BoringSSL-GRPC/crypto/bytestring/cbb.c:519-532 | DER booleans: 0xff or 0 |
| `Cbs.GetU` | Santa I Wish/Pods/BoringSSL-GRPC/crypto/bytestring/cbs.c:95-108 | the accumulating loop reads a big-endian number |
| `Cbs.ParseAsn1Tag` | Santa I Wish/Pods/BoringSSL-GRPC/crypto/bytestring/cbs.c:210-241 | a low or high identifier; a high form that fits the low one is refused |
| `Cbs.Cursor.GetTagged` | Santa I Wish/Pods/BoringSSL-GRPC/crypto/bytestring/cbs.c:350-375 | the next element, if it has the tag asked for |
| `Cbs.Cursor.Peek` | Santa I Wish/Pods/BoringSSL-GRPC/crypto/bytestring/cbs.c:381-389 | the tag is looked at, and nothing consumed |
| `Cbs.Cursor.GetOptionalAsn1` | Santa I Wish/Pods/BoringSSL-GRPC/crypto/bytestring/cbs.c:444-459 | nothing is consumed when the tag is not there |
| `Cbs.Cursor.GetOctets` | Santa I Wish/Pods/BoringSSL-GRPC/crypto/bytestring/cbs.c:461-481 | the octet string must fill its field |
| `Cbs.Cursor.GetOptionalBool` | Santa I Wish/Pods/BoringSSL-GRPC/crypto/bytestring/cbs.c:501-519 | 0 or 0xff and nothing else; absent means the default |
| `SslAsn1.WriteHead` | Santa I Wish/Pods/BoringSSL-GRPC/ssl/ssl_asn1.cc:205-216 | version, cipher and identifiers; a ticket leaves out the session id |
| `SslAsn1.WriteFirst` | Santa I Wish/Pods/BoringSSL-GRPC/ssl/ssl_asn1.cc:216-279 | the fields up to the ticket, each exactly when its condition holds |
| `SslAsn1.WriteSecond` | Santa I Wish/Pods/BoringSSL-GRPC/ssl/ssl_asn1.cc:281-350 | the fields up to the certificate chain |
| `SslAsn1.WriteThird` | Santa I Wish/Pods/BoringSSL-GRPC/ssl/ssl_asn1.cc:352-396 | the fields from the ticket age on |
| `SslAsn1.ParseHeadInto` | Santa I Wish/Pods/BoringSSL-GRPC/ssl/ssl_asn1.cc:535-597 | the head is read into the session, or refused for its version, cipher or sizes |
| `SslAsn1.ParseFirstInto` | Santa I Wish/Pods/BoringSSL-GRPC/ssl/ssl_asn1.cc:599-634 | the fields up to the ticket are read into the session |
| `SslAsn1.ParseSecondInto` | Santa I Wish/Pods/BoringSSL-GRPC/ssl/ssl_asn1.cc:636-672 | the fields up to the certificate chain are read into the session |
| `SslAsn1.ParseThirdInto` | Santa I Wish/Pods/BoringSSL-GRPC/ssl/ssl_asn1.cc:700-752 | the fields from the ticket age on are read into the session |

## Left out

nanopb
- 8-bit and 16-bit pb_size_t: sizes and tags are those of the 32-bit configuration; size_t is unbounded.
- Callbacks, extensions, pointer fields and dynamic allocation; the delimited and null-terminated variants of pb_decode.
- Raw structure layout: a message is a sequence of typed slots, and only the address arithmetic of the cursor is kept. A message whose slots do not have the types of its table encodes to nothing.
- The word that the initialisation clears at a fixed-count array may reach past a shorter array; what lies behind it in memory is initialised later, and the model clears nothing of it.
- Bytes nobody can observe: the contents of absent fields, of unused array entries and of unselected oneof members.
- PbEncode.Encode: assumes that no tag of the table is 0, as the zero tag ends a table in memory.
- WireDecoding.DecodesFields: for known fields with the wire type of their table entry; others are read by their table entry, as the code does, and only the specification of decoding says what comes of that.
- PbDecode.DecodeNoinit: assumes a table without extension placeholders and without a zero tag.

DTLS
- Sealing is adding a bounded number of bytes; records carry their plaintext.
- DtlsDelivery.DeliveredInOrder: replay and authentication of records are not part of this run, so the network may repeat any fragment; the order does not depend on them.
- Timers: a timeout is a call of Retransmit at any time.
- Reassembly.HmFragment.constructor: the message memory, uninitialised in the source, is modelled as zeros; no byte of it is handed out before it was received.
- Allocation failures.

TLS stream
- Early data, the DTLS branch of the write buffer, record splitting for CBC ciphers.
- The address that alignment of a new write buffer depends on is a parameter.
- TlsOutbound.Conn.WriteAppData: the retry key is the buffer address and the length, as in the source, so the promise is for retries whose data starts with what was sealed before.
- TlsInbound.Inbound.OpenRecord: decryption, version and length checks of the record layer are a parameter; V2ClientHello leaves the model.

Handshake
- The TLS 1.3 machines appear only as what they wait for; DTLS and SSL 3.0 only where the steps branch on them.
- The steps are functions on the fields of the handshake, and the dispatch loop assigns their result; parsing, extension negotiation and cryptography are inputs of a step, several checks that end in the same error being one input.
- HandshakeRuns.GoodRunsEnd: for handshakes below TLS 1.3 without early data, handoff or a renegotiation that resumes; the HelloVerifyRequest is the client's, as this server sends none.
- Handshake.HandshakeSafety: early data, handoff and false start end in the waits they cause, without what an application does meanwhile.

Cipher choice and reference counts
- ssl_get_compatible_server_ciphers: the masks it computes are a setting.
- Memory order: compare-and-swap acts on one shared counter, one step at a time.

Sessions
- Certificates are byte strings; the X.509 cache callback succeeds, and allocation does not fail.
- i2d_SSL_SESSION and the public wrappers around the two functions.

The application's own Swift code, its data model and its network calls are not part of this model.
