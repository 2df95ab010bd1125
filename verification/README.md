# A verified model of the benchmark's protobuf codec

This project models the hand-written Protocol Buffers codec in
`bench/rust_quick_protobuf/src/main.rs`, where every message type has three functions that must agree:
a size predictor (`get_size`), a writer (`write_message`) and a decoding loop (`from_reader`). A nested
message's length prefix is its *predicted* size, so whether `Complex` or `PresenceMix` can be decoded at
all rests on the exactness of the predictors below it. Beside the codec it models the wire primitives the
repository writes out itself (`AppendVarint` and the unknown-field stress payload in C++, `varint`, `key`
and `field_*` in Python) and the benchmark gate of `bench/summarize_compare.py`, where two independently
written loops must reach one verdict.

## How it is put together

| layer | modules | content |
|---|---|---|
| wire format | `Bytes`, `Utf8`, `Base128`, `ZigZag`, `Records`, `Scalars` | text, varints, the zig-zag bit trick, records, scalar and packed payloads |
| laws of decoding | `Sequences`, `Folding`, `Maps`, `Fields`, `Layouts` | facts about concatenation; decoding as a fold of one step a record: concatenation, field order, unknown records; hash maps and their orders; the tags of an encoding |
| machines | `Writing`, `Reading` | a writer over a growing buffer, a reader with a position and a limit |
| messages | `AuditCodec`, `ChildCodec`, `CountMaps`, `AuditMaps`, `PersonCodec`, `TextBytesCodec`, `ScalarMixCodec`, `PresenceMixCodec`, `ComplexCodec`, `PackedCodec`, `LargeMapCodec` | for each message: its records, its step, its merge; the three imperative functions and the theorems |
| wire helpers | `UnknownStress`, `SmokePrimitives` | the stress payload and its accounting; the smoke test's helpers |
| gate | `Gates` | both summaries and their agreement |

Each message has two descriptions that do not mention each other: `…Records`, the list of records that an
encoded value consists of, and `Step`, what one received record does to a message. The lemma `Absorb`
connects them: folding the records of `b` over any message `m` gives `Merge(m, b)`. Round trip is `Absorb`
on the default message, and concatenation is `Absorb` on a decoded one. `WriteMessage` is proved to append
exactly the bytes of `…Records`, `GetSize` to return their number, and `FromReader` to compute the fold of
`Step` over its window and to stop exactly at the window's end. The arms of a `from_reader` loop are the
method `ReadArm`: with the tag already read, it must do to the reader and the message what one record does
under `Step`, whichever way the payload is malformed.

Neither description is taken on trust. `OneMoreRecord` says, for every input that was accepted so far and
every further record, which field the reader sets and to what, in terms of residues, zig-zag preimages and
Unicode scalar values; `Layout` and `EntriesInOrder` say which tags the written bytes have, how often, in
which order, and what each map record holds. In the gate, `RowShows`, `HoleShows`, `LossesShow` and
`PivotShows` tell from the log and the matrix alone what a report must contain.

Automatic induction is turned off for every lemma; each induction is written in its proof.

## Modelling decisions

* `Writer`, `BytesReader` and `sizeofs` come from the crate quick-protobuf, which is not part of this
  model. They are built here from the Protocol Buffers Encoding specification ("Base 128 Varints",
  "Message Structure", "Signed Integers", "Non-varint Numbers", "Length-Delimited Records", "Packed
  Repeated Fields", "Maps"), so every theorem is about that reading of them. The reader is strict: it
  fails on truncated input, on a declared length beyond its limit, on varints of more than ten bytes, and
  on groups and the wire types 6 and 7. A ten-byte varint keeps its low 64 bits; a tag, and a 32-bit
  scalar read from a varint, the low 32. The repeated failure checks (`?`) become `Option`.
* Lengths are unbounded integers. A theorem about bytes that are read back asks for an encoding shorter
  than 2^64 bytes, which every in-memory `Vec<u8>` is; nothing else about the values is restricted.
* A `HashMap` is a `map`, and the order its iterator happens to use is a parameter `order`. `Enumerates`
  admits every order, and `Maps.SomeOrder` shows that there always is one.
* The merge rules are the code's, not the standard's: a second nested message or packed record replaces
  the first one, repeated strings, bytes and messages append, map entries insert, the four arms of
  `PresenceMixPick` (three of `ComplexSubject`) share one field.
* A map entry is read as a small message: tags 10 and 16 (or 18) are the key and the value, either may be
  missing or repeated, and any other record in it is skipped.
* Floats are their IEEE 754 bit patterns. `!= 0.0` is false on both zeros and true on every NaN.
* Strings are byte sequences that satisfy `ValidUtf8`; reading a string checks it.
* The fourteen kinds of packed message share their three functions but for the element kind and the size
  formula, so `PackedCodec` is parametric in the kind.
* `encode_to_vec` is generic over the messages; the model has one copy for each message it is called with.
* `start` and `end` of the reader move as in the code; `Delivers` says that a successful read returns the
  specified value and remainder under an unchanged limit, and that any read moves forward only.
* The C++ parser of the unknown-field benchmark is libprotobuf, which is not part of this model. Its
  unknown fields are taken to be the records that match no field of `Person`.
* Times in the gate are reals; the dictionary of baselines is a list in the order of iteration.

## Where the code does less than it seems to

* `ScalarMix::get_size` adds 2 for the one-byte tag 114, so it is one too large exactly when `ids` is
  non-empty. `ScalarMixCodec.GetSize` states the excess and `ScalarMixCodec.EncodeToVec` the spare byte it
  reserves. `ScalarMix` is never nested, so no length prefix depends on it.
* A `ScalarMix` holding a negative zero does not survive a round trip. `ScalarMixCodec.RoundTripExactly` says
  exactly when it does, and `ScalarMixCodec.MinusZeroIsLost` shows one that does not.
* The docstring of `summarize_pivot` promises the gap accounting of `summarize`. On an unvalidated matrix
  without any baseline the two differ: `Gates.GatesDisagree` gives the exact condition,
  `Gates.GatesDisagreeOnce` an instance, `Gates.ValidatedGatesAgree` the agreement that
  `validate_workloads` buys.

## Model

| member | source | states |
|---|---|---|
| Base128.VarintLength | bench/cpp_protobuf/main.cc:126-132 | An encoding takes at most k bytes exactly for the values below 128^k |
| Base128.Varint64Length | bench/cpp_protobuf/main.cc:126-132 | At most 10 bytes for a 64-bit value and 5 for a 32-bit one |
| Base128.VarintRoundTrip | bench/cpp_protobuf/main.cc:126-132 | What AppendVarint emits reads back as the value, with any suffix left untouched |
| Base128.Varint64RoundTrip | bench/cpp_protobuf/main.cc:126-132 | The same through the ten-byte, 64-bit reader, for every 64-bit value |
| Base128.VarintShortest | bench/cpp_protobuf/main.cc:126-132 | No byte string that reads as the value is shorter than the one emitted |
| Base128.VarintSplits | bench/cpp_protobuf/main.cc:126-132 | With anything behind them, two encodings of which one begins the other are equal |
| Base128.VarintPrefixFree | bench/cpp_protobuf/main.cc:126-132 | No encoding is a proper prefix of another |
| Base128.SizeofVarintMonotone | bench/rust_quick_protobuf/src/main.rs:105-110 | Sizes grow with the value |
| Base128.VarintMeans | bench/cpp_protobuf/main.cc:126-132 | A varint reads exactly if a byte below 0x80 comes within the budget; the bytes up to it spell the value digit by digit |
| Base128.VarintUnended | bench/cpp_protobuf/main.cc:126-132 | Without such a byte there is nothing to read |
| Base128.SpellsOne | bench/cpp_protobuf/main.cc:126-132 | Bytes spell one number only |
| Base128.Varint64Means | bench/rust_quick_protobuf/src/main.rs:105-110 | The 64-bit reader accepts at most ten bytes and keeps the low 64 bits |
| Utf8.ValidUtf8Means | bench/rust_quick_protobuf/src/main.rs:70 | A string is accepted exactly if it is a concatenation of encoded Unicode scalar values |
| ZigZag.EncodeValue | bench/rust_quick_protobuf/src/main.rs:105-110 | (v << 1) ^ (v >> (w-1)), with its word truncation and sign-filling shift, is 2v or -2v-1, for every width |
| ZigZag.DecodeEncode | bench/rust_quick_protobuf/src/main.rs:105-110 | The trick is injective: the decoder inverts it |
| ZigZag.EncodeDecode | bench/rust_quick_protobuf/src/main.rs:105-110 | The trick is onto the unsigned range: every word is the encoding of a signed value that fits |
| ZigZag.SizeofSintIsLength | bench/rust_quick_protobuf/src/main.rs:105-110 | sizeof_sint32 and sizeof_sint64 are the length of the varint that is written |
| ZigZag.SizeofSintMonotone | bench/rust_quick_protobuf/src/main.rs:105-110 | They are at most 5 and 10 and monotone in max(v, -v-1) |
| Records.RecordRoundTrip | bench/rust_quick_protobuf/src/main.rs:36-61 | A record written with its tag reads back, suffix untouched, for the four wire types |
| Records.RecordPrefixFree | tools/smoke_conformance.py:16-34 | One encoded record is a prefix of another exactly when they are equal |
| Records.ParseEncode | bench/rust_quick_protobuf/src/main.rs:566-602 | A sequence of written records parses to those records |
| Records.ParseConcat | bench/rust_quick_protobuf/src/main.rs:605-635 | The records of a complete input followed by any bytes are its own and then those of the rest, failure included |
| Records.NestedContained | bench/rust_quick_protobuf/src/main.rs:605-635 | A length-delimited read succeeds exactly if the declared length fits the window, and takes exactly that many bytes |
| Records.LittleEndianAt | bench/rust_quick_protobuf/src/main.rs:178-193 | Fixed-width words are written lowest byte first |
| Records.FixedMeans | bench/rust_quick_protobuf/src/main.rs:219-224 | A fixed-width read yields the word whose bytes are in front, and fails only on a short input |
| Records.PayloadMeans | bench/rust_quick_protobuf/src/main.rs:65-84 | Which wire types are read, as what, and exactly when a payload is there; groups and the unassigned types never are |
| Records.RecordMeans | bench/rust_quick_protobuf/src/main.rs:605-609 | The tag is the low 32 bits of a varint, its low three bits choose the payload, and both must be readable |
| Scalars.ScalarRoundTrip | bench/rust_quick_protobuf/src/main.rs:160-233 | Every value of every scalar kind is recovered, sign extension and truncation included |
| Scalars.ScalarSize | bench/rust_quick_protobuf/src/main.rs:113-159 | The size formula of a kind is the number of bytes written for a value |
| Scalars.Int32Size | bench/rust_quick_protobuf/src/main.rs:19-21 | A negative int32 takes ten bytes, any other at most five |
| Scalars.PackRoundTrip | bench/rust_quick_protobuf/src/main.rs:676-705 | A packed payload of any kind and length unpacks to the list |
| Scalars.OnlyDenotes | bench/rust_quick_protobuf/src/main.rs:213-227 | Every payload, canonical or not, denotes one value of a kind, by residue, zig-zag preimage or truth, and that is what is read |
| Scalars.WrittenAs | bench/rust_quick_protobuf/src/main.rs:160-206 | Signed varint kinds are written as 64-bit two's complement, unsigned ones and bools as they are |
| Scalars.ZigZagWrittenAs | bench/rust_quick_protobuf/src/main.rs:105-110 | The sint kinds are written as the bit trick computes them |
| Scalars.PackAppend | bench/rust_quick_protobuf/src/main.rs:684-692 | Packed elements stand in the order of the list, each in the form of its kind |
| Scalars.UnpackMeans | bench/rust_quick_protobuf/src/main.rs:694-705 | Unpacking element by element, for canonical and other payloads, failures included |
| Folding.RunIsFold | bench/rust_quick_protobuf/src/main.rs:605-635 | The decoding loop computes the fold over the parsed records, and fails when either fails |
| Folding.RunStep | bench/rust_quick_protobuf/src/main.rs:605-635 | One turn of the loop: a tag, one step for the record it opens, then the rest of the input |
| Folding.RunConcat | bench/rust_quick_protobuf/src/main.rs:605-635 | Decoding xs ++ ys is decoding ys from the state reached after xs |
| Folding.FieldOrder | bench/rust_quick_protobuf/src/main.rs:454-472 | If records for different fields commute, any interleaving with equal per-field subsequences folds alike, failures included |
| Folding.RunUnknown | bench/rust_quick_protobuf/src/main.rs:454-472 | Records that feed no field may be inserted at a record boundary, whatever follows |
| Folding.RunOneMore | bench/rust_quick_protobuf/src/main.rs:605-635 | An accepted input and one more record: one more step |
| Folding.RunReplace | bench/rust_quick_protobuf/src/main.rs:605-635 | A record may be replaced by one with the same effect, whatever stands around it |
| Maps.InsertEntries | bench/rust_quick_protobuf/src/main.rs:1325-1343 | Inserting the entries of a map in any order overrides with that map |
| Maps.LastEntryWins | bench/rust_quick_protobuf/src/main.rs:1325-1343 | With repeated keys the last entry decides |
| Maps.TotalOrderFree | bench/rust_quick_protobuf/src/main.rs:1298-1307 | A sum over the entries does not depend on the iteration order |
| Maps.MapLengthOrderFree | bench/rust_quick_protobuf/src/main.rs:568-602 | The byte length of a map field does not depend on the iteration order |
| Writing.Writer.WriteVarint | bench/cpp_protobuf/main.cc:126-132 | The loop appends the varint and keeps what was in the buffer |
| Writing.Writer.WriteBytesWithTag | bench/rust_quick_protobuf/src/main.rs:260-274 | Appends one length-delimited record |
| Writing.Writer.WritePackedWithTag | bench/rust_quick_protobuf/src/main.rs:684-692 | The prefix computed as a sum of sizes is the length of the payload that follows |
| Writing.Writer.WriteRepeated | bench/rust_quick_protobuf/src/main.rs:260-274 | One record an item, in order |
| Writing.SumSizes | bench/rust_quick_protobuf/src/main.rs:677-683 | The sum of the element sizes is the packed payload length |
| Reading.Reader.Enter | bench/rust_quick_protobuf/src/main.rs:503-515 | A nested read opens a window of exactly the declared bytes, or fails; the limit never grows |
| Reading.Reader.Leave | bench/rust_quick_protobuf/src/main.rs:503-515 | Reading goes on right behind the nested window, under the restored outer limit |
| Reading.Reader.ReadVarint | bench/rust_quick_protobuf/src/main.rs:213-229 | The varint reader moves to the byte behind the varint, or fails |
| Reading.Reader.ReadScalar | bench/rust_quick_protobuf/src/main.rs:213-229 | The scalar readers return the value of the payload and move behind it |
| Reading.Reader.ReadPacked | bench/rust_quick_protobuf/src/main.rs:694-705 | read_packed returns every element of the declared window and consumes it whole |
| Reading.Reader.ReadUnknown | bench/rust_quick_protobuf/src/main.rs:65-84 | read_unknown steps over one payload of the tag's wire type and rejects groups |
| CountMaps.EntryRoundTrip | bench/rust_quick_protobuf/src/main.rs:48-59 | A written string-to-int32 entry reads back |
| CountMaps.EmptyEntry | bench/rust_quick_protobuf/src/main.rs:72-79 | An entry without key and value is the empty key with the default value |
| CountMaps.OneMoreInEntry | bench/rust_quick_protobuf/src/main.rs:72-79 | One more record in an entry sets the key, sets the value or does nothing, for every payload |
| CountMaps.UnknownInEntry | bench/rust_quick_protobuf/src/main.rs:72-79 | Records of an entry that are neither key nor value change nothing |
| CountMaps.CountSize | bench/rust_quick_protobuf/src/main.rs:29-32 | The size loop over the entries is the length of their records |
| CountMaps.WriteCounts | bench/rust_quick_protobuf/src/main.rs:48-59 | The writing loop appends one entry record a pair, its length prefix predicted exactly |
| CountMaps.ReadEntryArm | bench/rust_quick_protobuf/src/main.rs:72-79 | With its tag read, one turn of the loop reads one payload and applies its effect, or fails where the record is malformed |
| CountMaps.ReadEntry | bench/rust_quick_protobuf/src/main.rs:72-79 | read_map consumes its declared window whole and returns what its records fold to |
| AuditMaps.EntryRoundTrip | bench/rust_quick_protobuf/src/main.rs:576-588 | A written string-to-audit entry reads back, nested message included |
| AuditMaps.EmptyEntry | bench/rust_quick_protobuf/src/main.rs:613-620 | An entry without key and value is the empty key with the default value |
| AuditMaps.OneMoreInEntry | bench/rust_quick_protobuf/src/main.rs:613-620 | One more record in an entry sets the key, sets the value or does nothing, for every payload |
| AuditMaps.UnknownInEntry | bench/rust_quick_protobuf/src/main.rs:613-620 | Records of an entry that are neither key nor value change nothing |
| AuditMaps.UnknownInValue | bench/rust_quick_protobuf/src/main.rs:613-620 | Unknown records inside the nested value of an entry change nothing |
| AuditMaps.AuditsSize | bench/rust_quick_protobuf/src/main.rs:547-551 | The size loop, through the nested predictor, is the length of the entry records |
| AuditMaps.WriteAudits | bench/rust_quick_protobuf/src/main.rs:576-588 | The writing loop appends one entry record a pair, both nested prefixes predicted exactly |
| AuditMaps.ReadEntryArm | bench/rust_quick_protobuf/src/main.rs:613-620 | With its tag read, one turn of the loop reads one payload and applies its effect, or fails where the record is malformed |
| AuditMaps.ReadEntry | bench/rust_quick_protobuf/src/main.rs:613-620 | read_map with a nested message value consumes its declared window whole |
| AuditCodec.Absorb | bench/rust_quick_protobuf/src/main.rs:503-515 | Decoding an encoding over any audit merges the two |
| AuditCodec.RoundTrip | bench/rust_quick_protobuf/src/main.rs:480-515 | Every audit is recovered |
| AuditCodec.NestedRoundTrip | bench/rust_quick_protobuf/src/main.rs:566-602 | The payload of a nested audit record decodes to the audit |
| AuditCodec.OneMoreRecord | bench/rust_quick_protobuf/src/main.rs:503-515 | Any accepted input followed by one more record, arm by arm: which field it sets, appends to or inserts into, for every payload, canonical or not; without an arm it does nothing |
| AuditCodec.UnknownTransparent | bench/rust_quick_protobuf/src/main.rs:503-515 | Records with no arm, inserted at any record boundary, change nothing |
| AuditCodec.Layout | bench/rust_quick_protobuf/src/main.rs:492-500 | Parsed back, the encoding has exactly the tags of the fields that are not elided, each as often as its values, in ascending order |
| AuditCodec.GetSize | bench/rust_quick_protobuf/src/main.rs:481-490 | get_size is the encoded length |
| AuditCodec.WriteMessage | bench/rust_quick_protobuf/src/main.rs:492-500 | write_message appends the encoding |
| AuditCodec.WriteNested | bench/rust_quick_protobuf/src/main.rs:566-575 | The predicted prefix and the message together are one record |
| AuditCodec.ReadArm | bench/rust_quick_protobuf/src/main.rs:507-511 | With its tag read, one turn of the loop reads one payload and applies its effect, or fails where the record is malformed |
| AuditCodec.FromReader | bench/rust_quick_protobuf/src/main.rs:503-515 | The loop terminates on every input; it yields the fold of the window and ends at its limit, or fails |
| AuditCodec.ReadNested | bench/rust_quick_protobuf/src/main.rs:611-612 | A nested audit read consumes its declared length, nothing beyond, and restores the limit |
| ChildCodec.Absorb | bench/rust_quick_protobuf/src/main.rs:363-375 | Decoding an encoding over any child merges the two |
| ChildCodec.RoundTrip | bench/rust_quick_protobuf/src/main.rs:341-375 | Every child is recovered |
| ChildCodec.OneMoreRecord | bench/rust_quick_protobuf/src/main.rs:363-375 | Any accepted input followed by one more record, arm by arm: which field it sets, appends to or inserts into, for every payload, canonical or not; without an arm it does nothing |
| ChildCodec.UnknownTransparent | bench/rust_quick_protobuf/src/main.rs:363-375 | Records with no arm, inserted at any record boundary, change nothing |
| ChildCodec.Layout | bench/rust_quick_protobuf/src/main.rs:352-360 | Parsed back, the encoding has exactly the tags of the fields that are not elided, each as often as its values, in ascending order |
| ChildCodec.GetSize | bench/rust_quick_protobuf/src/main.rs:342-351 | get_size is the encoded length |
| ChildCodec.WriteMessage | bench/rust_quick_protobuf/src/main.rs:352-360 | write_message appends the encoding |
| ChildCodec.WriteNested | bench/rust_quick_protobuf/src/main.rs:432-445 | The predicted prefix and the message together are one record |
| ChildCodec.ReadArm | bench/rust_quick_protobuf/src/main.rs:367-371 | With its tag read, one turn of the loop reads one payload and applies its effect, or fails where the record is malformed |
| ChildCodec.FromReader | bench/rust_quick_protobuf/src/main.rs:363-375 | The loop terminates on every input; it yields the fold of the window and ends at its limit, or fails |
| ChildCodec.ReadNested | bench/rust_quick_protobuf/src/main.rs:462-465 | A nested child read consumes its declared length, nothing beyond, and restores the limit |
| ComplexCodec.Absorb | bench/rust_quick_protobuf/src/main.rs:533-635 | Decoding an encoding over any message merges the two, for every order of the map |
| ComplexCodec.RoundTrip | bench/rust_quick_protobuf/src/main.rs:533-635 | Every message is recovered, for every order of its map, across nested, repeated, map and oneof fields |
| ComplexCodec.Injective | bench/rust_quick_protobuf/src/main.rs:566-602 | Two messages with one encoding are equal, whatever the orders of their maps |
| ComplexCodec.Concatenation | bench/rust_quick_protobuf/src/main.rs:566-635 | Decoding enc(a) ++ enc(b) is the right-biased merge: history appended, map overridden |
| ComplexCodec.FieldOrderIrrelevant | bench/rust_quick_protobuf/src/main.rs:605-635 | Two inputs whose records agree field by field (the oneof one field, unknown records free) decode alike, or both fail |
| ComplexCodec.SwapNeighbours | bench/rust_quick_protobuf/src/main.rs:605-635 | Neighbouring records with different tags may be swapped unless both are oneof arms |
| ComplexCodec.LaterArmWins | bench/rust_quick_protobuf/src/main.rs:621-629 | Of any two values of the oneof the later wins, so swapping their records changes the result exactly when they differ |
| ComplexCodec.UnknownTransparent | bench/rust_quick_protobuf/src/main.rs:605-635 | Records with no arm, inserted at any record boundary, change nothing |
| ComplexCodec.OneMoreRecord | bench/rust_quick_protobuf/src/main.rs:605-635 | Any accepted input followed by one more record, arm by arm: which field it sets, appends to or inserts into, for every payload, canonical or not; without an arm it does nothing |
| ComplexCodec.ReplaceAudit | bench/rust_quick_protobuf/src/main.rs:605-635 | Payloads that decode to the same audit are interchangeable under tags 18, 26 and 58, whatever stands around them |
| ComplexCodec.ReplaceEntry | bench/rust_quick_protobuf/src/main.rs:613-620 | Map records that decode to the same entry are interchangeable |
| ComplexCodec.UnknownInAudit | bench/rust_quick_protobuf/src/main.rs:507-511 | Unknown records inside a nested audit change nothing, under tags 18, 26 and 58 |
| ComplexCodec.UnknownInMapEntry | bench/rust_quick_protobuf/src/main.rs:613-620 | Records of a map entry that are neither key nor value change nothing |
| ComplexCodec.UnknownInMapValue | bench/rust_quick_protobuf/src/main.rs:613-620 | Unknown records inside the audit of a map entry, two levels down, change nothing |
| ComplexCodec.Layout | bench/rust_quick_protobuf/src/main.rs:566-602 | Parsed back, the encoding has exactly the tags of the fields that are not elided, each as often as its values, in ascending order |
| ComplexCodec.EntriesInOrder | bench/rust_quick_protobuf/src/main.rs:576-588 | The map's records stand in the order of the iteration; each holds its key and then its value, defaults included |
| ComplexCodec.GetSize | bench/rust_quick_protobuf/src/main.rs:534-564 | get_size is the encoded length, for every order of the map |
| ComplexCodec.WriteMessage | bench/rust_quick_protobuf/src/main.rs:566-602 | write_message appends the encoding for the order of its iteration |
| ComplexCodec.EncodeToVec | bench/rust_quick_protobuf/src/main.rs:1455-1462 | The buffer fills the reserved capacity exactly and decodes to the message, for the order of the iteration; its records have ascending tags |
| ComplexCodec.ReadArm | bench/rust_quick_protobuf/src/main.rs:609-631 | With its tag read, one turn of the loop reads one payload and applies its effect, or fails where the record is malformed |
| ComplexCodec.FromReader | bench/rust_quick_protobuf/src/main.rs:605-635 | The loop terminates on every input; it yields the fold of the window and ends at its limit, or fails |
| ComplexCodec.DecodeBytes | bench/rust_quick_protobuf/src/main.rs:1790-1791 | Decoding a whole input: success leaves the reader at the end of the input |
| PresenceMixCodec.Absorb | bench/rust_quick_protobuf/src/main.rs:422-472 | Decoding an encoding over any message merges the two |
| PresenceMixCodec.RoundTrip | bench/rust_quick_protobuf/src/main.rs:394-472 | Every message is recovered; a present default is told from an absent field |
| PresenceMixCodec.Concatenation | bench/rust_quick_protobuf/src/main.rs:422-472 | Decoding enc(a) ++ enc(b) is the merge; a later child replaces the earlier one |
| PresenceMixCodec.FieldOrderIrrelevant | bench/rust_quick_protobuf/src/main.rs:454-472 | Two inputs whose records agree field by field (four oneof arms, one field) decode alike, or both fail |
| PresenceMixCodec.SwapNeighbours | bench/rust_quick_protobuf/src/main.rs:454-472 | Neighbouring records with different tags may be swapped unless both are oneof arms |
| PresenceMixCodec.LaterArmWins | bench/rust_quick_protobuf/src/main.rs:463-466 | Of any two values of the oneof the later wins, so swapping their records changes the result exactly when they differ |
| PresenceMixCodec.UnknownTransparent | bench/rust_quick_protobuf/src/main.rs:455-471 | Records with no arm, inserted at any record boundary, change nothing |
| PresenceMixCodec.OneMoreRecord | bench/rust_quick_protobuf/src/main.rs:454-472 | Any accepted input followed by one more record, arm by arm: which field it sets, appends to or inserts into, for every payload, canonical or not; without an arm it does nothing |
| PresenceMixCodec.ReplaceChild | bench/rust_quick_protobuf/src/main.rs:454-472 | Payloads that decode to the same child are interchangeable under tags 34 and 58 |
| PresenceMixCodec.UnknownInChild | bench/rust_quick_protobuf/src/main.rs:363-375 | Unknown records inside a nested child change nothing, under tags 34 and 58 |
| PresenceMixCodec.Layout | bench/rust_quick_protobuf/src/main.rs:422-451 | Parsed back, the encoding has exactly the tags of the fields that are not elided, each as often as its values, in ascending order |
| PresenceMixCodec.GetSize | bench/rust_quick_protobuf/src/main.rs:395-421 | get_size is the encoded length |
| PresenceMixCodec.WriteMessage | bench/rust_quick_protobuf/src/main.rs:422-451 | write_message appends the encoding |
| PresenceMixCodec.EncodeToVec | bench/rust_quick_protobuf/src/main.rs:1455-1462 | The buffer fills the reserved capacity exactly and decodes to the message; its records have ascending tags |
| PresenceMixCodec.ReadArm | bench/rust_quick_protobuf/src/main.rs:458-468 | With its tag read, one turn of the loop reads one payload and applies its effect, or fails where the record is malformed |
| PresenceMixCodec.FromReader | bench/rust_quick_protobuf/src/main.rs:454-472 | The loop terminates on every input; it yields the fold of the window and ends at its limit, or fails |
| PersonCodec.Absorb | bench/rust_quick_protobuf/src/main.rs:36-84 | Decoding an encoding over any person merges the two |
| PersonCodec.RoundTrip | bench/rust_quick_protobuf/src/main.rs:16-85 | Every person is recovered, for every order of the counts |
| PersonCodec.Concatenation | bench/rust_quick_protobuf/src/main.rs:36-84 | Decoding enc(a) ++ enc(b) is the merge; packed scores replace, counts override |
| PersonCodec.FieldOrderIrrelevant | bench/rust_quick_protobuf/src/main.rs:65-84 | Two inputs whose records agree field by field, unknown records free, decode alike, or both fail |
| PersonCodec.UnknownTransparent | bench/rust_quick_protobuf/src/main.rs:65-84 | Records with no arm, inserted at any record boundary, change nothing |
| PersonCodec.OneMoreRecord | bench/rust_quick_protobuf/src/main.rs:65-84 | Any accepted input followed by one more record, arm by arm: which field it sets, appends to or inserts into, for every payload, canonical or not; without an arm it does nothing |
| PersonCodec.UnknownInMapEntry | bench/rust_quick_protobuf/src/main.rs:72-79 | Records of a map entry that are neither key nor value change nothing |
| PersonCodec.Layout | bench/rust_quick_protobuf/src/main.rs:36-61 | Parsed back, the encoding has exactly the tags of the fields that are not elided, each as often as its values, in ascending order |
| PersonCodec.EntriesInOrder | bench/rust_quick_protobuf/src/main.rs:48-59 | The map's records stand in the order of the iteration; each holds its key and then its value, defaults included |
| PersonCodec.Projection | bench/rust_quick_protobuf/src/main.rs:363-375 | Whatever the Person reader accepts, the PresenceMixChild reader accepts with the same id and name |
| PersonCodec.EncodingProjects | bench/rust_quick_protobuf/src/main.rs:36-61 | The encoding of any person decodes as the child {id, name} |
| PersonCodec.GetSize | bench/rust_quick_protobuf/src/main.rs:17-34 | get_size is the encoded length, for every order of the counts |
| PersonCodec.WriteMessage | bench/rust_quick_protobuf/src/main.rs:36-61 | write_message appends the encoding for the order of its iteration |
| PersonCodec.EncodeToVec | bench/rust_quick_protobuf/src/main.rs:1455-1462 | The buffer fills the reserved capacity exactly and decodes to the message; its records have ascending tags |
| PersonCodec.ReadArm | bench/rust_quick_protobuf/src/main.rs:68-81 | With its tag read, one turn of the loop reads one payload and applies its effect, or fails where the record is malformed |
| PersonCodec.FromReader | bench/rust_quick_protobuf/src/main.rs:65-84 | The loop terminates on every input; it yields the fold of the window and ends at its limit, or fails |
| TextBytesCodec.RoundTrip | bench/rust_quick_protobuf/src/main.rs:243-291 | Every message is recovered |
| TextBytesCodec.Concatenation | bench/rust_quick_protobuf/src/main.rs:260-291 | Decoding enc(a) ++ enc(b) is the merge; tags and chunks append |
| TextBytesCodec.FieldOrderIrrelevant | bench/rust_quick_protobuf/src/main.rs:277-291 | Two inputs whose records agree field by field, unknown records free, decode alike, or both fail |
| TextBytesCodec.UnknownTransparent | bench/rust_quick_protobuf/src/main.rs:277-291 | Records with no arm, inserted at any record boundary, change nothing |
| TextBytesCodec.OneMoreRecord | bench/rust_quick_protobuf/src/main.rs:277-291 | Any accepted input followed by one more record, arm by arm: which field it sets, appends to or inserts into, for every payload, canonical or not; without an arm it does nothing |
| TextBytesCodec.Layout | bench/rust_quick_protobuf/src/main.rs:260-274 | Parsed back, the encoding has exactly the tags of the fields that are not elided, each as often as its values, in ascending order |
| TextBytesCodec.GetSize | bench/rust_quick_protobuf/src/main.rs:244-259 | get_size is the encoded length |
| TextBytesCodec.WriteMessage | bench/rust_quick_protobuf/src/main.rs:260-274 | write_message appends the encoding |
| TextBytesCodec.EncodeToVec | bench/rust_quick_protobuf/src/main.rs:1455-1462 | The buffer fills the reserved capacity exactly and decodes to the message; its records have ascending tags |
| TextBytesCodec.ReadArm | bench/rust_quick_protobuf/src/main.rs:281-287 | With its tag read, one turn of the loop reads one payload and applies its effect, or fails where the record is malformed |
| TextBytesCodec.FromReader | bench/rust_quick_protobuf/src/main.rs:277-291 | The loop terminates on every input; it yields the fold of the window and ends at its limit, or fails |
| ScalarMixCodec.Absorb | bench/rust_quick_protobuf/src/main.rs:160-233 | Decoding an encoding over any message merges the two, elided fields left alone |
| ScalarMixCodec.RoundTrip | bench/rust_quick_protobuf/src/main.rs:160-233 | Every message is recovered up to the sign of a zero float; NaN patterns are kept |
| ScalarMixCodec.RoundTripExactly | bench/rust_quick_protobuf/src/main.rs:188-193 | It is recovered exactly if and only if neither float is a negative zero |
| ScalarMixCodec.MinusZeroIsLost | bench/rust_quick_protobuf/src/main.rs:188-190 | A message that is not recovered |
| ScalarMixCodec.Concatenation | bench/rust_quick_protobuf/src/main.rs:160-233 | Decoding enc(a) ++ enc(b) is the merge of the normalised a with b |
| ScalarMixCodec.FieldOrderIrrelevant | bench/rust_quick_protobuf/src/main.rs:209-233 | Two inputs whose records agree field by field, unknown records free, decode alike, or both fail |
| ScalarMixCodec.UnknownTransparent | bench/rust_quick_protobuf/src/main.rs:209-233 | Records with no arm, inserted at any record boundary, change nothing |
| ScalarMixCodec.OneMoreRecord | bench/rust_quick_protobuf/src/main.rs:209-233 | Any accepted input followed by one more record, arm by arm: which field it sets, appends to or inserts into, for every payload, canonical or not; without an arm it does nothing |
| ScalarMixCodec.Layout | bench/rust_quick_protobuf/src/main.rs:160-206 | Parsed back, the encoding has exactly the tags of the fields that are not elided, each as often as its values, in ascending order |
| ScalarMixCodec.GetSize | bench/rust_quick_protobuf/src/main.rs:113-159 | get_size is the encoded length, plus 1 exactly when ids is non-empty |
| ScalarMixCodec.WriteMessage | bench/rust_quick_protobuf/src/main.rs:160-206 | write_message appends the encoding |
| ScalarMixCodec.EncodeToVec | bench/rust_quick_protobuf/src/main.rs:1455-1462 | The reserved capacity is one byte too large exactly when ids is written; the bytes decode to the message up to the sign of a zero float; its records have ascending tags |
| ScalarMixCodec.ReadArm | bench/rust_quick_protobuf/src/main.rs:213-229 | With its tag read, one turn of the loop reads one payload and applies its effect, or fails where the record is malformed |
| ScalarMixCodec.FromReader | bench/rust_quick_protobuf/src/main.rs:209-233 | The loop terminates on every input; it yields the fold of the window and ends at its limit, or fails |
| PackedCodec.RoundTrip | bench/rust_quick_protobuf/src/main.rs:676-705 | Lists of any length and kind are recovered exactly; only the empty one writes nothing |
| PackedCodec.Concatenation | bench/rust_quick_protobuf/src/main.rs:694-705 | A second packed record replaces the first |
| PackedCodec.UnknownTransparent | bench/rust_quick_protobuf/src/main.rs:694-705 | Records with no arm, inserted at any record boundary, change nothing |
| PackedCodec.OneMoreRecord | bench/rust_quick_protobuf/src/main.rs:694-705 | An accepted input followed by one more record: tag 10 replaces the list by the unpacked payload, or fails with it; any other tag does nothing |
| PackedCodec.FixedSize | bench/rust_quick_protobuf/src/main.rs:784-790 | Elements of constant width: the payload is their number times the width |
| PackedCodec.GetSize | bench/rust_quick_protobuf/src/main.rs:677-683 | The sum of sizes, or the closed form of the fixed kinds, is the encoded length |
| PackedCodec.WriteMessage | bench/rust_quick_protobuf/src/main.rs:684-692 | write_message appends the encoding |
| PackedCodec.EncodeToVec | bench/rust_quick_protobuf/src/main.rs:1455-1462 | The buffer fills the reserved capacity exactly and decodes to the message |
| PackedCodec.ReadArm | bench/rust_quick_protobuf/src/main.rs:698-701 | With its tag read, one turn of the loop reads one payload and applies its effect, or fails where the record is malformed |
| PackedCodec.FromReader | bench/rust_quick_protobuf/src/main.rs:694-705 | The loop terminates on every input; it yields the fold of the window and ends at its limit, or fails |
| LargeMapCodec.AbsorbEntries | bench/rust_quick_protobuf/src/main.rs:1325-1343 | Any entry list, repeated keys included, decodes to its insertions in order |
| LargeMapCodec.LastEntryDecides | bench/rust_quick_protobuf/src/main.rs:1325-1343 | For entry lists with repeated keys, the last entry of a key is what decoding yields |
| LargeMapCodec.OrderIrrelevant | bench/rust_quick_protobuf/src/main.rs:1297-1343 | Two orders of one map give encodings of equal length that both decode to the map |
| LargeMapCodec.RoundTrip | bench/rust_quick_protobuf/src/main.rs:1297-1343 | Every map is recovered, for every order |
| LargeMapCodec.UnknownTransparent | bench/rust_quick_protobuf/src/main.rs:1325-1343 | Records with no arm, inserted at any record boundary, change nothing |
| LargeMapCodec.OneMoreRecord | bench/rust_quick_protobuf/src/main.rs:1325-1343 | An accepted input followed by one more record: tag 10 inserts the decoded entry, or fails with it; any other tag does nothing |
| LargeMapCodec.UnknownInMapEntry | bench/rust_quick_protobuf/src/main.rs:1330-1337 | Records of a map entry that are neither key nor value change nothing |
| LargeMapCodec.Layout | bench/rust_quick_protobuf/src/main.rs:1308-1322 | Parsed back, the encoding has one record with tag 10 an entry and nothing else |
| LargeMapCodec.EntriesInOrder | bench/rust_quick_protobuf/src/main.rs:1308-1322 | The map's records stand in the order of the iteration; each holds its key and then its value, defaults included |
| LargeMapCodec.GetSize | bench/rust_quick_protobuf/src/main.rs:1298-1307 | get_size is the encoded length, for every order |
| LargeMapCodec.WriteMessage | bench/rust_quick_protobuf/src/main.rs:1308-1322 | write_message appends the encoding for the order of its iteration |
| LargeMapCodec.EncodeToVec | bench/rust_quick_protobuf/src/main.rs:1455-1462 | The buffer fills the reserved capacity exactly and decodes to the message, for the order of the iteration |
| LargeMapCodec.ReadArm | bench/rust_quick_protobuf/src/main.rs:1329-1339 | With its tag read, one turn of the loop reads one payload and applies its effect, or fails where the record is malformed |
| LargeMapCodec.FromReader | bench/rust_quick_protobuf/src/main.rs:1325-1343 | The loop terminates on every input; it yields the fold of the window and ends at its limit, or fails |
| UnknownStress.MakeUnknownFieldPayload | bench/cpp_protobuf/main.cc:134-143 | The payload is the base followed by n varint fields; parsed back, field i has number first + i mod span and the value i + 1 |
| UnknownStress.UnknownFieldCountByNumber | bench/cpp_protobuf/main.cc:145-152 | The result is the number of positions that hold the number |
| UnknownStress.StressTurns | bench/cpp_protobuf/main.cc:134-152 | Number first+j occurs exactly as often as there are i < n with i mod span = j |
| UnknownStress.StressCount | bench/cpp_protobuf/main.cc:134-152 | In closed form: max(0, ceil((n-j)/span)) times, for any n and span |
| UnknownStress.StressParses | bench/cpp_protobuf/main.cc:134-143 | The payload parses to the records of the base and then the appended ones |
| UnknownStress.StressTransparent | bench/cpp_protobuf/main.cc:134-143 | The known fields decode as from the base alone, unless an appended field has number 1 |
| UnknownStress.StressTransparentExactly | bench/cpp_protobuf/main.cc:134-143 | The condition is exact: with number 1 among the appended fields there is a base that decodes differently |
| UnknownStress.StressAccounting | bench/cpp_protobuf/main.cc:134-152 | On a base without unknown fields the payload has exactly n of them if and only if no appended field has number 1, and n/span for each other number when span divides n |
| UnknownStress.BenchmarkAccounting | bench/cpp_protobuf/main.cc:1919-1924 | With the benchmark's constants: 1024 unknown fields, 64 for each number |
| SmokePrimitives.MakeVarint | tools/smoke_conformance.py:20-26 | The loop returns the varint of any non-negative integer and fails on a negative one |
| SmokePrimitives.FailsOnNegatives | tools/smoke_conformance.py:16-34 | field_varint and field_bytes fail exactly on negative arguments |
| SmokePrimitives.MakesRecords | tools/smoke_conformance.py:16-34 | On the wire format's numbers and values, a helper makes exactly one record |
| SmokePrimitives.JoinedFieldsRead | tools/smoke_conformance.py:29-34 | A field nested in a field, with anything behind it, parses back to both |
| SmokePrimitives.FieldsReadBack | tools/smoke_conformance.py:16-34 | For all numbers and values, key and value read back one after the other, with anything behind them |
| SmokePrimitives.FieldsPrefixFree | tools/smoke_conformance.py:16-34 | For all numbers, values and data, one field is a prefix of another exactly when the same helper made both from equal arguments |
| Gates.BestMeans | bench/summarize_compare.py:1440-1444 | best fails exactly when nothing was measured; otherwise it names a measured candidate no other beats |
| Gates.BestIsLeast | bench/summarize_compare.py:1440-1444 | best returns the first listed of the least measured candidates, and nothing else qualifies |
| Gates.Summarize | bench/summarize_compare.py:1447-1502 | The rows are the measured cells in the order of the matrix, with names, least timings, ratio and strict comparison; the holes are all the others; the losses are exactly the lost rows, as often and in the order they occur; the flag is raised by an empty table, a hole or a loss |
| Gates.MatrixMeans | bench/summarize_compare.py:1447-1468 | Row by row and hole by hole, in order, the loops collect what the log and the matrix determine |
| Gates.LossesMean | bench/summarize_compare.py:1488-1493 | A row is listed as a gap as often as it occurs if it is lost, and never otherwise; the order is kept |
| Gates.SummarizePivot | bench/summarize_compare.py:1505-1553 | The rows are the measured workloads in order, each with its own name, its least pbz time and a cell for exactly the measured baselines, with least time and ratio; the flag is raised by an empty table, a hole or a comparison not won |
| Gates.PivotMeans | bench/summarize_compare.py:1518-1535 | The pivot rows are the measured workloads in order, each shown by its own name, time and cells |
| Gates.Conservation | bench/summarize_compare.py:1447-1468 | Rows and holes together number the baselines of every measured workload plus one for each unmeasured one |
| Gates.GateSound | bench/summarize_compare.py:1447-1502 | The gate opens exactly if some baseline is listed, every workload was measured, and every cell was measured and strictly won |
| Gates.PivotSound | bench/summarize_compare.py:1505-1553 | The pivot gate opens exactly if the matrix is not empty, every workload was measured, and every listed cell was measured and strictly won |
| Gates.AllWinsLine | bench/summarize_compare.py:1498-1502 | The closing all-wins line appears exactly when the gate opens |
| Gates.GatesDisagree | bench/summarize_compare.py:1447-1553 | The two flags differ exactly on a non-empty, fully measured matrix without a single baseline |
| Gates.GatesDisagreeOnce | bench/summarize_compare.py:1447-1553 | A matrix on which they differ |
| Gates.ValidatedGatesAgree | bench/summarize_compare.py:1409-1428 | After validate_workloads the two flags are equal for every log |
| Gates.ValidateWorkloads | bench/summarize_compare.py:1409-1428 | The assertions hold exactly for the valid matrices |
| Gates.ValidMeans | bench/summarize_compare.py:1409-1428 | Said by position: counts agree, workload names differ pairwise, candidate lists are non-empty and without repetition, implementations are named, baselines are listed |
| Gates.CellsMean | bench/summarize_compare.py:1519-1535 | The pivot has a cell for a baseline exactly if the table has its row, with the same time and ratio |
| Gates.NoRepeatsMeans | bench/summarize_compare.py:1421-1428 | The length comparison of a tuple with its set holds exactly when no entry is repeated |

## Left out

- `LargeBytes` (lines 293-333 of main.rs): the fields and arms of `TextBytes` without the strings.
- The crate quick-protobuf: the readers and writers here follow the Encoding specification, not its code; in particular its treatment of trailing or malformed bytes inside a map entry is not modelled beyond the rules above.
- Errors: a failed read is `None`; error values, messages and the UTF-8 error are not told apart. After a failure only that the reader moved forward within its limits is stated, and the half-built message is dropped, as in the code.
- `Vec` capacity and reallocation; a `usize` narrower than 64 bits; encodings of 2^64 bytes or more.
- Floating-point arithmetic; floats are bit patterns, and copying one is taken to keep its pattern.
- UnknownStress.MakeUnknownFieldPayload: does not model field numbers of 2^29 and more, or a count beyond the C++ `int`, where `number << 3` no longer is a tag.
- UnknownStress.StressAccounting: does not model libprotobuf's parser. Its unknown fields are taken to be the records that match no field of the modelled `Person` reader; libprotobuf itself also rejects number 0 and may take an unpacked varint numbered 3 for `scores`. The benchmark numbers its fields from 1000.
- SmokePrimitives.MakesRecords: does not model values of 2^64 and more, which `varint` accepts and no reader of 64-bit varints returns.
- The payload builders (`make_*`, `Make*`), timing, printing, both `main` functions and the shuffled map index.
- The JSON, TextFormat, prost and Go benchmarks, which call libraries that are not part of this model.
- In `summarize_compare.py`: log parsing, the Markdown text of the rows, the fixed baseline columns of the pivot, the workload literals and the argument parser. The count in `COVERAGE.md` is a parameter.
- The Zig library and its examples.
