# A Dafny model of QtProtobuf

The project models the four parts of QtProtobuf and QtGrpc that carry its hardest
guarantees, and proves them for all inputs, all reachable states or all runs:

1. **The protobuf binary codec** (`QProtobufSerializer`). `Wire`, `Messages`, `Encoder` and
   `Decoder` say which bytes are written for a message and what happens on *every* byte
   string (`WireFormat` spells the bytes out in numbers); `Serializer`, `Deserializer` and
   `SelfcheckIterator` are the loops and the iterator of the source, proved to compute exactly
   that. The main theorems: decoding the bytes of a
   writer with one version of the message types gives a reader with another version exactly its
   view of the message (`Evolution.DecodeOfEncode`); with the same fields, in any iteration
   order, it gives the message back exactly when no list or map element is null
   (`Identity.RoundTripIff`); encodings one after the other are merged property by property
   (`Evolution.DecodeOfTwo`); a decoding goes on for ever exactly when its loop, or that of
   a submessage, comes to some record twice, which takes a skipped field with a length above
   INT_MAX (`EndlessDecoding`); bytes cut anywhere decode to the complete records before the cut
   and throw exactly when the cut is inside a record (`Truncation.DecodeOfCut`).
2. **Message equality through lazy pointers**, which identifies a null submessage with a
   default one: it decides equality of normal forms and is an equivalence (`Equality`), and
   creating submessages on access is not visible to it (`Identity`).
3. **The native gRPC calls** (`QGrpcChannelStream`, `QGrpcChannelStreamBidirect`,
   `QGrpcChannelCall`): state machines over outstanding completion tags, which come back in any
   order. Reference counts, order of writes and settlement of write replies are proved over all
   runs (`StreamLifetime`, `StreamOrder`, `StreamSettlement`, `StreamWriteDone`, `StreamReading`,
   `GrpcCalls`); classes with the fields of the source carry out the steps
   (`ChannelStreamBidirect`, `ChannelCalls`).
4. **The HTTP/2 deframer**: the handler receives the messages that were sent if and only if the
   cuts between the chunks satisfy a condition on positions (`Reassembly.ReassemblyIff`).

Two smaller parts are the readers-writer lock of `HandlersRegistry`, for any number of threads
and any interleaving (what its callers may expect is in `HandlersHistory`), and the client's table of active streams (`ActiveStreams`, `GrpcClient`).

## Reading the model

- A read is a function of the bytes in front of the iterator, and of the container where the
  iterator may step back; it yields a value and the rest, or throws. `Undefined` marks what has no
  defined meaning in C++: a varint unfinished after ten bytes, the copy of a block whose declared
  length is above INT_MAX, and a step over a skipped field that leaves the front of the container.
  Any other length above INT_MAX is a step back, as in the source: over a skipped field it moves
  the iterator, at a list or map entry it puts the end behind it, so that the loop runs until it
  throws. `Endless` stands for a call that never returns. `Unspecified` in the deframer is a header
  read from fewer than five bytes, or a size field that is negative or overflows an int.
- Dafny methods end, so the loop of `deserializeMessage` is left after as many records as its
  container has bytes; `EndlessDecoding.EndlessIff` shows that the source then never leaves it.
- A registry maps message names to field lists; the order of a list is the order in which the
  unordered `propertyOrdering` table happens to iterate, so theorems over all lists are theorems
  over all orders. Types may be recursive; messages are finite trees. Serialization reads every
  property, which creates singular submessages, so `Encodable` messages hold theirs, and
  `ReadOfMsg` relates a stored message to what reading it yields.
- Integers are unbounded in Dafny; widths are explicit (`TWO32`, `TWO64`, `ToSigned`,
  `ToUnsigned`), and the bit operations of the source are written arithmetically.
- Empty strings and byte arrays are written: under Qt 6 a `QVariant` that holds one is not null.
- The code is followed where it is looser than the format: the wire type of a known field is not
  compared with its property type, the verdict of `decodeHeader` is ignored inside map entries,
  and packed lists of basic types replace an earlier value where other lists extend it. Lists of
  bool have no handler: reading one throws bad_function_call, and none can be written.
- Fixed-width values and length-delimited blocks are copied by the source before the iterator
  checks the bound; the model reports only the out_of_range that follows.

## What turned out false, and when it holds

- A message with null list or map elements does not round-trip; `Identity.RoundTripIff` gives
  the exact condition.
- Decoding does not end on every input: six bytes make the loop come back to its first record
  (`EndlessDecoding.SixBytesLoop`). `EndlessDecoding.EndlessIff` gives the exact condition, and
  `EndlessDecoding.TameEnds` says that it takes a skipped field with a length above INT_MAX.
- The deframer loses a leftover of one to four bytes and keeps a stale size over a leftover of
  five; `Reassembly.ReassemblyIff` gives the exact condition, `ShallowCutLosesMessage` a witness.
- `writeDone` drops a reference it never took, so the object can be destroyed with a tag
  outstanding; `StreamLifetime.DestroyedSafelyIff` says for which runs it is not.
- Write replies are not always settled in order and once. `StreamSettlement.AlwaysAcceptedIff`
  says for which runs they are accounted for in every state, `SettledAfterFinishRead` which reply is
  settled twice when `finishRead` meets a write in flight, and `StreamWriteDone.SettledWithWriteDone`
  what a final `writeDone` does to all replies; `StreamWriteDone.NullReplyIff` says which runs use a
  reply that does not exist.
- More than one Write or WritesDone can be outstanding; `StreamOrder.OneWriteIff` says exactly in
  which runs. The documentation has `writeDone` called after the last write, and then there is
  only one (`StreamOrder.OneWriteAtATime`).
- A stream that its channel finishes before the request returns stays in the table of active
  streams for ever; `ActiveStreams.ActiveStreamsOk` says that these are the only such entries.

## Model

| member | source | states |
|---|---|---|
| `Wire.VarintRoundTrip` | src/protobuf/qprotobufserializer_p.h:275-294 | reading the varint of any 64-bit value gives it modulo the width of the reader and consumes nothing more |
| `Wire.VarintFits` | src/protobuf/qprotobufserializer_p.h:75-96 | at most five bytes for 32 bits and ten for 64 |
| `Wire.VarintIsShortest` | src/protobuf/qprotobufserializer_p.h:187-211 | no byte string that reads as a value is shorter than the varint that is written for it |
| `Wire.SkipConsumesWhatReadingDoes` | src/protobuf/qprotobufserializer.cpp:218-224 | skipping a varint consumes exactly the bytes that reading it consumes |
| `Wire.CutVarintThrows` | src/protobuf/qprotobufserializer_p.h:275-294 | every proper prefix of a varint throws out_of_range, read or skipped |
| `Wire.TwosComplementRoundTrip` | src/protobuf/qprotobufserializer_p.h:167-174 | casting a signed value to unsigned and back gives it again |
| `Wire.ZigZagMeaning` | src/protobuf/qprotobufserializer_p.h:153-165 | shift and exclusive or amount to 2n for n >= 0 and -2n-1 otherwise |
| `Wire.ZigZagBijection` | src/protobuf/qprotobufserializer_p.h:325-334 | the decoder's and the encoder's formula are inverse to each other on all N-bit values |
| `Wire.HeaderRoundTrip` | src/protobuf/qprotobufserializer_p.h:474-499 | decodeHeader gives back field number and wire type for every field number up to 2^29-1 |
| `Wire.CutHeaderThrows` | src/protobuf/qprotobufserializer_p.h:488-499 | a header cut short throws out_of_range |
| `Wire.PrefixedRoundTrip` | src/protobuf/qprotobufserializer_p.h:380-410 | a length-delimited block is read back exactly, whatever follows it |
| `Wire.CutPrefixedThrows` | src/protobuf/qprotobufserializer_p.h:380-387 | a length-delimited block cut short throws out_of_range, in its length or at the step over it |
| `Wire.ClearedGroupsAreVarint` | src/protobuf/qprotobufserializer_p.h:75-96 | appending marked groups and clearing the last mark writes the varint |
| `WireFormat.VarintDigits` | src/protobuf/qprotobufserializer_p.h:75-96 | each byte of a varint: seven bits, the lowest first, all but the last marked, none left over |
| `WireFormat.ElementBytes` | src/protobuf/qprotobufserializer_p.h:108-225 | the bytes of every basic value with the numbers written out, ten for a negative enum |
| `WireFormat.RecordStarts` | src/protobuf/qprotobufserializer_p.h:474-478 | every record starts with eight times the field number plus 0, 1, 2 or 5 |
| `WireFormat.SingleFieldBytes` | src/protobuf/qprotobufserializer.cpp:258-283 | the whole bytes of a basic field: none for an integer zero, else header and value, also for empty strings and fixed-width zeros |
| `WireFormat.PackedFieldBytes` | src/protobuf/qprotobufserializer_p.h:227-250 | the whole bytes of a packed list field, none for an empty list |
| `WireFormat.EncodesToNothingIff` | src/protobuf/qprotobufserializer.cpp:81-97 | a message has no bytes exactly when every property is an integer zero or has no elements to write |
| `WireFormat.NumberMeans` | src/protobuf/qprotobufserializer_p.h:297-345 | what any number of up to 64 bits means when read as any integer type, by range and congruence |
| `WireFormat.MeansOne` | src/protobuf/qprotobufserializer_p.h:297-345 | a number has one meaning for a type |
| `WireFormat.DecodeOfNothing` | src/protobuf/qabstractprotobufserializer.h:97-111 | the values of an object decoded from no bytes, written out |
| `WireFormat.HeaderRefused` | src/protobuf/qprotobufserializer_p.h:488-499 | a header is refused for field number 0 and wire types 3, 4, 6 and 7 only |
| `WireFormat.SkipRefuses` | src/protobuf/qprotobufserializer.cpp:249-252 | no other wire type can be skipped |
| `WireFormat.TooLong` | src/protobuf/qprotobufserializer_p.h:283-291 | a varint with ten marked bytes has no defined value |
| `WireFormat.CopiedLength` | src/protobuf/qprotobufserializer_p.h:380-387 | what every declared length of a string or submessage does |
| `WireFormat.SkippedLength` | src/protobuf/qprotobufserializer.cpp:226-231 | what every declared length of a skipped field does, the step back from 2^31 on included |
| `WireFormat.BlockLength` | src/protobuf/qprotobufserializer_p.h:367-368 | where every declared length of a list or map entry puts its end |
| `WireFormat.EntryField` | src/protobuf/qprotobufserializer.cpp:333-352 | inside a map entry field 1 is read into the key and every other number, zero included, into the value |
| `WireFormat.MissingHandlers` | src/protobuf/qprotobufserializer.cpp:312-323 | an unregistered message type and a list of bool end in bad_function_call |
| `RoundTrip.FromWireToWire` | src/protobuf/qprotobufserializer_p.h:316-345 | every integer type is recovered from the unsigned value written for it, and zero alone is written as zero |
| `RoundTrip.ScalarRoundTrip` | src/protobuf/qprotobufserializer_p.h:297-358 | every value of every basic type is read back and nothing beyond it is consumed |
| `RoundTrip.NegativeInt32Forms` | src/protobuf/qprotobufserializer_p.h:336-345 | the ten-byte sign-extended form of a negative int32 and the five-byte form written here read as the same number |
| `RoundTrip.ElementsRoundTrip` | src/protobuf/qprotobufserializer_p.h:361-375 | for every list, zeros included, the loop meets the end of the packed block exactly and returns the elements in order |
| `RoundTrip.CompleteIsSkipped` | src/protobuf/qprotobufserializer.cpp:233-255 | skipping any record body of any wire type ends exactly behind it |
| `RoundTrip.UnknownRecord` | src/protobuf/qprotobufserializer.cpp:297-303 | a record of an unknown field leaves object and later records as they are |
| `RoundTrip.KnownRecord` | src/protobuf/qprotobufserializer.cpp:305-325 | a record of a known field replaces that property alone, by what its deserializer makes of the old value |
| `RoundTrip.BlockEndOfPrefixed` | src/protobuf/qprotobufserializer_p.h:363-370 | the end computed from a written length is the end of the block |
| `Merging.OverwriteStep` | src/protobuf/qabstractprotobufserializer_p.h:206-242 | inserting one more pair as the map deserializer does overwrites the map with one more pair, also where the key is present |
| `Merging.OverwriteLookup` | src/protobuf/qabstractprotobufserializer_p.h:206-242 | key by key, an overwritten map says what the second map says, else what the first says |
| `Evolution.PackedReads` | src/protobuf/qprotobufserializer_p.h:361-375 | the packed record of a list is read back as that list, replacing what was there, and after what was there for enum lists |
| `Evolution.ChildReads` | src/protobuf/qprotobufserializer.cpp:106-117 | a nested message is read back as the reader's view of it, and reading ends behind it |
| `Evolution.EntryReads` | src/protobuf/qprotobufserializer.cpp:327-353 | a map entry, with zero keys or values omitted, is read back with them restored, and the inner loop stops exactly at its end |
| `Evolution.FieldRuns` | src/protobuf/qprotobufserializer.cpp:258-283 | the records of a field of any type take a property from whatever it holds to that merged with the reader's view of the value |
| `Evolution.ChainReads` | src/protobuf/qprotobufserializer.cpp:99-104 | reading records one after the other ends in the last of the object states they lead through |
| `Evolution.MessageChain` | src/protobuf/qprotobufserializer.cpp:81-97 | the top-level records of a message lead from a default object to the reader's view |
| `Evolution.MergeChain` | src/protobuf/qprotobufserializer.cpp:305-325 | the top-level records of a message lead an object with any values to the property-wise merge with that message |
| `Evolution.MergeIntoDefault` | src/protobuf/qabstractprotobufserializer.h:97-111 | merging into a default object is the reader's view |
| `Evolution.DecodeOfTwo` | src/protobuf/qprotobufserializer.cpp:285-325 | two encodings one after the other, from writers of any two versions, decode to the second merged into the first: single values, submessages and packed basic lists replaced if written, enum, string and message lists appended, maps overwritten key by key |
| `Evolution.DecodeOfFields` | src/protobuf/qprotobufserializer.cpp:81-117 | the same as below for a message type that need not be registered |
| `Evolution.DecodeOfEncode` | src/protobuf/qprotobufserializer.cpp:81-117 | for any two compatible versions of the message types, any fields removed or added at any depth and any field order, decoding the encoding gives the message restricted to the reader's fields, with defaults for the rest |
| `MapEntries.EntryIsMessage` | src/protobuf/qprotobufserializer.cpp:130-137 | for every pair, a map entry is the encoding of a message with the key as field 1 and the value as field 2 |
| `MapEntries.EntryDecodes` | src/protobuf/qprotobufserializer.cpp:130-137 | decoding an entry as such a message, its two fields in either order, gives the key and the view of the value, which is the value exactly when it holds no null elements |
| `Identity.ViewIsIdentity` | src/protobuf/qprotobufserializer.cpp:81-97 | a reader with the same fields sees the message itself exactly when it has no null elements |
| `Identity.RoundTripIff` | src/protobuf/qprotobufserializer.cpp:81-117 | for every iteration order on either side, decoding succeeds and gives the message back if and only if no list or map element in it is null |
| `Identity.StoredRoundTrip` | src/protobuf/qabstractprotobufserializer.h:97-111 | serializing a stored message and deserializing the bytes gives a message equal to the stored one under operator == |
| `Identity.ReadIsEqual` | src/protobuf/qprotobuflazymessagepointer.h:47-86 | creating null submessages at any depth, as operator* and get do, gives an equal message |
| `Truncation.CutValueThrows` | src/protobuf/qprotobufserializer.cpp:305-325 | the deserializer of every property type throws out_of_range on every proper prefix of a body |
| `Truncation.CutRecordThrows` | src/protobuf/qprotobufserializer.cpp:285-325 | a record cut anywhere, known or unknown, throws out_of_range |
| `Truncation.CutChain` | src/protobuf/qprotobufserializer.cpp:99-104 | a cut sequence of records leaves the object in the state after the complete ones and throws exactly off a record boundary |
| `Truncation.DecodeOfCut` | src/protobuf/qabstractprotobufserializer.h:97-111 | every encoding cut at any point either ends on a top-level record boundary or throws out_of_range, and in both cases the target is the decoding of the complete records before the cut |
| `EndlessDecoding.RecordSameWay` | src/protobuf/qprotobufserializer.cpp:285-325 | where reading a record ends, or why it throws, does not depend on the object |
| `EndlessDecoding.RepeatsIffForever` | src/protobuf/qprotobufserializer.cpp:99-104 | the loop reaches some record start twice exactly when after any number of records there is another one to read |
| `EndlessDecoding.EndlessIff` | src/protobuf/qprotobufserializer.cpp:99-104 | on every byte string and every registry, decoding does not end if and only if a record start is reached twice or a record is reached whose submessage does not end |
| `EndlessDecoding.StuckHoldsEndless` | src/protobuf/qprotobufserializer.cpp:113-117 | a record that does not end holds, as a proper part of the bytes, a message whose decoding does not end |
| `EndlessDecoding.TameEnds` | src/protobuf/qprotobufserializer.cpp:226-231 | decoding ends on every byte string on which no record reached, at any depth, skips a field with a declared length above INT_MAX |
| `EndlessDecoding.SixBytesLoop` | src/protobuf/qprotobufselfcheckiterator.h:77-84 | for every type without field 1, six given bytes decode for ever |
| `Equality.EqChildIsNormEquality` | src/protobuf/qprotobuflazymessagepointer.h:47-86 | pointer equality decides equality of normal forms and agrees with comparing what operator* creates |
| `Equality.EqIsNormEquality` | src/generator/templates.cpp:164-172 | recursive message equality, terminating also for recursive types, holds exactly when the messages agree after replacing default submessages by null; message maps with different keys count as different |
| `Equality.EqIsEquivalence` | src/generator/templates.cpp:164-172 | message equality is reflexive, symmetric and transitive |
| `SelfcheckIterator.Iterator.constructor` | src/protobuf/qprotobufselfcheckiterator.h:42-45 | the iterator starts at the front with all bytes left |
| `SelfcheckIterator.Iterator.Peek` | src/protobuf/qprotobufselfcheckiterator.h:57-57 | operator * gives the byte in front, or the terminating zero at the end |
| `SelfcheckIterator.Iterator.Next` | src/protobuf/qprotobufselfcheckiterator.h:59-66 | operator ++ moves one byte and throws exactly at the end, position and size left staying in step |
| `SelfcheckIterator.Iterator.Advance` | src/protobuf/qprotobufselfcheckiterator.h:77-84 | operator += throws exactly beyond the end; the invariant survives exactly when the move does not leave the front |
| `SelfcheckIterator.Iterator.Plus` | src/protobuf/qprotobufselfcheckiterator.h:138-141 | operator + succeeds exactly inside the container and leaves the original alone |
| `Serializer.AppendGroups` | src/protobuf/qprotobufserializer_p.h:75-96 | the shifting loop appends the base-128 groups of the value, each marked |
| `Serializer.SerializeVarint` | src/protobuf/qprotobufserializer_p.h:75-96 | the loop writes the varint, one byte for zero |
| `Serializer.SerializeUnsigned` | src/protobuf/qprotobufserializer_p.h:187-211 | the loop writes the varint of every value but zero, which is marked as not used |
| `Serializer.EncodeHeader` | src/protobuf/qprotobufserializer_p.h:474-478 | the bytes of a header that decodeHeader inverts |
| `Serializer.PrependSize` | src/protobuf/qprotobufserializer_p.h:407-410 | the length prefix that deserializeLengthDelimited inverts |
| `Serializer.SerializeBasic` | src/protobuf/qprotobufserializer_p.h:108-225 | every basic type is written as the specification says, integers that are zero being left out |
| `Serializer.SerializeList` | src/protobuf/qprotobufserializer_p.h:227-250 | the loop writes a packed block with every element, zeros included |
| `Serializer.SerializeMessage` | src/protobuf/qprotobufserializer.cpp:81-97 | the loop over the properties writes exactly the specified encoding |
| `Serializer.SerializeProperty` | src/protobuf/qprotobufserializer.cpp:258-283 | a property is written as its records, none for an omitted value |
| `Serializer.SerializeObject` | src/protobuf/qprotobufserializer.cpp:106-111 | a submessage is written as a length-delimited block of its encoding |
| `Serializer.SerializeBlobs` | src/protobuf/qprotobufserializer.cpp:34-52 | one record per string or byte array, empty ones included |
| `Serializer.SerializeObjects` | src/protobuf/qabstractprotobufserializer_p.h:89-107 | one record per message that is not null, in order |
| `Serializer.SerializeMapPair` | src/protobuf/qprotobufserializer.cpp:130-137 | key and value as fields 1 and 2 of a nested block |
| `Serializer.SerializeMap` | src/protobuf/qabstractprotobufserializer_p.h:112-142 | one entry per pair, pairs with a null message left out |
| `Deserializer.DeserializeVarint` | src/protobuf/qprotobufserializer_p.h:275-294 | the accumulating loop in N-bit arithmetic computes the base-128 value modulo 2^N, throws at the end of the bytes, and keeps the iterator valid |
| `Deserializer.SkipVarintBytes` | src/protobuf/qprotobufserializer.cpp:218-224 | the loop moves behind the varint or throws |
| `Deserializer.DeserializeLengthDelimited` | src/protobuf/qprotobufserializer_p.h:380-387 | the block is returned and the iterator moved behind it, or it throws as specified |
| `Deserializer.DeserializeBasic` | src/protobuf/qprotobufserializer_p.h:297-358 | every basic type is read as specified, errors included |
| `Deserializer.Step` | src/protobuf/qprotobufselfcheckiterator.h:77-84 | the unchecked step back, the checked step forward, and nothing defined before the front |
| `Deserializer.SkipField` | src/protobuf/qprotobufserializer.cpp:226-255 | the iterator moves behind the body of an unknown field, or back over a length above INT_MAX as operator += does; an unknown wire type throws invalid_argument |
| `Deserializer.BlockEndOf` | src/protobuf/qprotobufserializer_p.h:367-368 | the length is read and the end of the block is where the iterator addition puts it, also behind the iterator, or it throws |
| `Deserializer.DeserializeList` | src/protobuf/qprotobufserializer_p.h:361-375 | a packed list is read as specified, errors included; a count above INT_MAX ends in a throw as the iterator addition or the loop gives it |
| `Deserializer.DeserializeElements` | src/protobuf/qprotobufserializer_p.h:370-374 | the loop collects the elements up to the end of the block, and goes on past it when they do not meet it |
| `Deserializer.Deserialize` | src/protobuf/qabstractprotobufserializer.h:97-111 | the target receives what was decoded, also when the exception goes on, and stays as it is when decoding does not end |
| `Deserializer.DeserializeMessage` | src/protobuf/qprotobufserializer.cpp:99-104 | the object is left as specified on every byte string for every registry, and Endless is returned where the source never returns |
| `Deserializer.DeserializeRecords` | src/protobuf/qprotobufserializer.cpp:101-103 | the loop computes the specified outcome |
| `Deserializer.DeserializeProperty` | src/protobuf/qprotobufserializer.cpp:285-325 | one record is read into the object, and when it throws the object is unchanged |
| `Deserializer.DecodeHeader` | src/protobuf/qprotobufserializer_p.h:488-499 | a header is read and the iterator strictly advanced, or it throws |
| `Deserializer.DeserializeValue` | src/protobuf/qabstractprotobufserializer_p.h:174-274 | the deserializer of each property type appends, inserts or replaces as specified |
| `Deserializer.DeserializeObject` | src/protobuf/qprotobufserializer.cpp:113-117 | a new object is filled from a block strictly shorter than the bytes at hand |
| `Deserializer.DeserializeMapPair` | src/protobuf/qprotobufserializer.cpp:327-353 | an entry is read into a default key and value as specified, a length above INT_MAX included |
| `Deserializer.DeserializePairFields` | src/protobuf/qprotobufserializer.cpp:333-352 | the loop reads field 1 into the key and every other field into the value up to the end of the entry |
| `Deframer.FrameLayout` | src/grpc/qgrpchttp2channel.cpp:134-136 | a frame is a zero byte, the length in four bytes written out, and the message, and no other byte string is |
| `Deframer.SizeFieldBytes` | src/grpc/qgrpchttp2channel.cpp:196-198 | the size read from any five bytes, and when it no longer fits |
| `Deframer.FirstChunk` | src/grpc/qgrpchttp2channel.cpp:284-298 | what the first chunk of a message does, by its length and its size bytes |
| `Deframer.SizeFieldOfFrame` | src/grpc/qgrpchttp2channel.cpp:196-198 | the size read from the first five bytes of a frame is that of its message |
| `Deframer.StreamReply.ReadyRead` | src/grpc/qgrpchttp2channel.cpp:281-319 | one chunk changes the table entry and calls the handler as specified; on a finished reply the entry is dropped and nothing is handled |
| `Deframer.StreamReply.HandleComplete` | src/grpc/qgrpchttp2channel.cpp:305-315 | the loop hands every complete message to the handler, in order, and keeps the rest |
| `Reassembly.DrainConserves` | src/grpc/qgrpchttp2channel.cpp:305-315 | the loop neither loses nor invents bytes: frames handled plus bytes kept are the bytes given |
| `Reassembly.DeliveredSoFar` | src/grpc/qgrpchttp2channel.cpp:281-319 | after any part of a stream with good cuts exactly the complete messages have been handled, and there is no table entry exactly at a frame boundary |
| `Reassembly.LostAll` | src/grpc/qgrpchttp2channel.cpp:309-318 | once bytes are forgotten or a size is stale, no later chunks bring the stream back in step |
| `Reassembly.ReassemblyIff` | src/grpc/qgrpchttp2channel.cpp:281-319 | for all messages and all ways to cut their frames, the handler receives exactly the messages in order if and only if all cuts are good, and then no entry is left |
| `Reassembly.DeepCutsAreGood` | src/grpc/qgrpchttp2channel.cpp:309-318 | cuts on frame boundaries or at least six bytes into a frame are good for non-empty messages |
| `Reassembly.ShallowCutLosesMessage` | src/grpc/qgrpchttp2channel.cpp:309-318 | two messages and a cut one byte into the second frame for which the handler does not receive them |
| `ChannelStreamBidirect.ChannelStream.constructor` | src/grpc/qgrpcchannel.cpp:173-181 | a new object has one reference, for the shared pointers |
| `ChannelStreamBidirect.ChannelStream.StartReader` | src/grpc/qgrpcchannel.cpp:191-203 | two tags are outstanding, each with its reference, and writes are held back |
| `ChannelStreamBidirect.ChannelStream.Release` | src/grpc/qgrpcchannel.cpp:221-224 | a reference is dropped and the object deleted exactly at zero |
| `ChannelStreamBidirect.ChannelStream.WriteDone` | src/grpc/qgrpcchannel.cpp:211-225 | the whole new state, a reference being dropped that was not taken |
| `ChannelStreamBidirect.ChannelStream.AppendToSend` | src/grpc/qgrpcchannel.cpp:227-240 | the whole new state: queued while a write is in process, else written |
| `ChannelStreamBidirect.ChannelStream.NewData` | src/grpc/qgrpcchannel.cpp:242-273 | the whole new state in every reader state |
| `ChannelStreamBidirect.ChannelStream.FinishRead` | src/grpc/qgrpcchannel.cpp:275-310 | the whole new state: the reply in flight fails first, then the queue |
| `ChannelStreamBidirect.ChannelStream.FailQueue` | src/grpc/qgrpcchannel.cpp:298-303 | the loop fails every queued reply once, in order, and empties the queue |
| `ChannelStreamBidirect.ChannelStream.FinishWrite` | src/grpc/qgrpcchannel.cpp:312-331 | the whole new state: the current reply is settled, and the next write starts unless the object is deleted |
| `ChannelStreamBidirect.ChannelStream.DequeueWrite` | src/grpc/qgrpcchannel.cpp:333-349 | the whole new state: the first item is written, a done item without becoming the current reply |
| `ChannelStreamBidirect.ChannelStream.SharedPtrReleased` | src/grpc/qgrpcchannel.cpp:783-790 | the reference of the shared pointers is dropped |
| `ChannelStreamBidirect.Start` | src/grpc/qgrpcchannel.cpp:633-743 | the constructed object with its reader started is the initial state of the runs |
| `StreamLifetime.AskedInRun` | src/grpc/qgrpcchannel.cpp:655-669 | the log of requests is what the events of a run ask for, in order |
| `StreamLifetime.ReferencesBalance` | src/grpc/qgrpcchannel_p.h:90-94 | in every run the count is outstanding tags, plus one while shared pointers exist, minus the calls of writeDone, and the object is destroyed at most once, exactly when these balance |
| `StreamLifetime.DestroyedSafelyIff` | src/grpc/qgrpcchannel.cpp:211-225 | of the runs that destroy the object, exactly those without writeDone leave no tag and no pointer behind |
| `StreamLifetime.LifetimeWithoutWriteDone` | src/grpc/qgrpcchannel_p.h:90-94 | without writeDone the object is destroyed exactly when no tag and no pointer is left, and whenever nothing more can happen |
| `StreamLifetime.WriteDoneDestroysEarly` | src/grpc/qgrpcchannel.cpp:221-224 | a run with writeDone that destroys the object while a tag is outstanding |
| `StreamLifetime.TagsFollowCalls` | src/grpc/qgrpcchannel.cpp:191-349 | in every run the calls given to the writer are the write tags outstanding and handed back, finishRead comes at most once, and pointers and connections last until the event that ends them |
| `StreamOrder.WritesInOrder` | src/grpc/qgrpcchannel.cpp:227-349 | in every run the calls given to the writer are a prefix of those asked for, in the same order, and until finishRead the rest is queued |
| `StreamOrder.OneWriteIff` | src/grpc/qgrpcchannel.cpp:211-240 | at most one Write or WritesDone is outstanding throughout a run if and only if no request is made while the WritesDone of an idle writeDone is outstanding |
| `StreamOrder.OneWriteAtATime` | src/grpc/qgrpcchannel.cpp:211-240 | when nothing is asked for after writeDone, at most one Write or WritesDone is outstanding, and WritesDone comes after all messages |
| `StreamOrder.WriteAfterDoneOverlaps` | src/grpc/qgrpcchannel.cpp:215-219 | a run in which a write after writeDone is outstanding together with it |
| `StreamSettlement.AlwaysAcceptedIff` | src/grpc/qgrpcchannel.cpp:211-349 | for distinct replies, the accepted replies are accounted for in every state of a run if and only if no request finds an idle writeDone outstanding and no done item is taken from the queue |
| `StreamSettlement.NoWriteDoneIsClean` | src/grpc/qgrpcchannel.cpp:227-240 | every run without writeDone is such a run |
| `StreamSettlement.RepliesAccountedFor` | src/grpc/qgrpcchannel.cpp:227-349 | in every clean run, until finishRead the accepted replies are in order those settled, the one in flight and those queued, and no missing reply is used |
| `StreamSettlement.SettledAfterFinishRead` | src/grpc/qgrpcchannel.cpp:292-325 | once finishRead has run every accepted reply is settled in order, the one it failed in flight again when its tag comes back, and that of a writeDone made when idle by its own tag only |
| `StreamSettlement.StatusesReported` | src/grpc/qgrpcchannel.cpp:292-323 | the statuses given to the replies are the results of the writes in order, then exactly one failure for the reply failed in flight and for each queued one, then results again |
| `StreamSettlement.InFlightSettledTwice` | src/grpc/qgrpcchannel.cpp:293-325 | a run in which a reply is settled as failed and then as sent |
| `StreamSettlement.QueuedDoneSettlesOlderReply` | src/grpc/qgrpcchannel.cpp:338-340 | a run in which writeDone's reply is never settled and an older one is settled twice |
| `StreamSettlement.QueuedDoneUsesNullReply` | src/grpc/qgrpcchannel.cpp:338-340 | a run in which finishWrite uses a reply that does not exist |
| `StreamReading.BidirectDeliversInOrder` | src/grpc/qgrpcchannel.cpp:242-273 | whatever is written meanwhile, in every run the stream reports exactly the messages it read, in order, and one read is outstanding exactly until a tag fails or a buffer cannot be parsed |
| `StreamWriteDone.SettledWithWriteDone` | src/grpc/qgrpcchannel.cpp:211-349 | the settled replies after a final writeDone, exactly: made when idle all in order and once; made when busy, once WritesDone is issued, those before it with the last one repeated by finishRead and by the tag of WritesDone; until then accounted for as without it |
| `StreamWriteDone.NullReplyIff` | src/grpc/qgrpcchannel.cpp:312-349 | of all runs, exactly those whose first request is a writeDone made while in process, and in which a write tag comes back, use a reply that does not exist |
| `StreamWriteDone.WriteDoneSettledIff` | src/grpc/qgrpcchannel.cpp:211-225 | for a writeDone that is the last request, once WritesDone was issued and its tag is back, its reply is settled if and only if no write was in process at the call |
| `ChannelCalls.ChannelCall.constructor` | src/grpc/qgrpcchannel_p.h:64-73 | a new object has one reference, for the shared pointers |
| `ChannelCalls.ChannelCall.StartReader` | src/grpc/qgrpcchannel.cpp:97-110 | two tags are outstanding, each with its reference |
| `ChannelCalls.ChannelCall.StreamNewData` | src/grpc/qgrpcchannel.cpp:119-149 | the whole new state of a server stream in every reader state |
| `ChannelCalls.ChannelCall.CallNewData` | src/grpc/qgrpcchannel.cpp:392-416 | the whole new state of a unary call in every reader state |
| `ChannelCalls.ChannelCall.FinishRead` | src/grpc/qgrpcchannel.cpp:151-171 | finished is emitted and a reference dropped |
| `ChannelCalls.ChannelCall.SharedPtrReleased` | src/grpc/qgrpcchannel.cpp:783-790 | the reference of the shared pointers is dropped |
| `ChannelCalls.Start` | src/grpc/qgrpcchannel.cpp:549-631 | the constructed object with its reader started is the initial state of the runs |
| `GrpcCalls.Lifetime` | src/grpc/qgrpcchannel_p.h:90-94 | in every run of a server stream or unary call the count is tags plus one while shared pointers exist; the object is destroyed once, exactly when neither is left, which is exactly when nothing more can happen; finished is emitted once |
| `GrpcCalls.SurroundingsFollow` | src/grpc/qgrpcchannel.cpp:151-171 | finished is emitted with its tag, and pointers and connections last until the event that ends them |
| `GrpcCalls.StreamDeliversInOrder` | src/grpc/qgrpcchannel.cpp:119-149 | a server stream reports exactly the messages it read, in order, and reads on exactly while every tag was good |
| `GrpcCalls.CallReadsOneResponse` | src/grpc/qgrpcchannel.cpp:392-416 | a unary call reads at most one response, only after its first tag came back well, and keeps exactly that |
| `HandlersRegistry.ReadersOrOneWriter` | src/protobuf/qabstractprotobufserializer.cpp:45-67 | in every reachable state of any number of threads, available permits plus readers plus 64 times writers are 64, and a writer excludes readers and other writers |
| `HandlersRegistry.NeverTornUnderReader` | src/protobuf/qabstractprotobufserializer.cpp:49-67 | no thread reads the map while it is half written, and it does not change under a reader |
| `HandlersRegistry.FindIsAtomic` | src/protobuf/qabstractprotobufserializer.cpp:56-67 | every answer is that of a lookup at one instant between call and return in a map with registrations applied one at a time |
| `HandlersRegistry.LookupIsLast` | src/protobuf/qabstractprotobufserializer.cpp:49-67 | such a lookup gives the handler of the last registration for the type, or nothing exactly when there is none |
| `HandlersHistory.OperationsDone` | src/protobuf/qabstractprotobufserializer.cpp:49-67 | in every run, the registrations a thread begins are, in order and each once, those of it that were written and the one still to be written; the types it looks up are, in order, those answered and the one it is in |
| `HandlersHistory.WrittenWasBegun` | src/protobuf/qabstractprotobufserializer.cpp:49-54 | every registration in the map was begun by the thread recorded for it |
| `HandlersHistory.FindInstant` | src/protobuf/qabstractprotobufserializer.cpp:56-67 | a lookup is answered as of an instant after it began |
| `HandlersHistory.FindSeesRegistration` | src/protobuf/qabstractprotobufserializer.cpp:49-67 | a lookup that begins after a registration for its type returned gives the handler of a registration for that type no earlier than any written when it began |
| `HandlersHistory.FindEmpty` | src/protobuf/qabstractprotobufserializer.cpp:56-67 | a lookup finds nothing only if no registration for its type had returned |
| `HandlersRegistry.NoDeadlock` | src/protobuf/qabstractprotobufserializer.cpp:49-67 | in every reachable state some thread can go on if and only if some operation is unfinished |
| `HandlersRegistry.OperationsEnd` | src/protobuf/qabstractprotobufserializer.cpp:49-67 | under every schedule the unfinished operations end within a number of steps fixed by the state |
| `ActiveStreams.FinishedRemovesOnlyItself` | src/grpc/qabstractgrpcclient.cpp:232-244 | a watched stream that finishes leaves the table, the others stay in order, and a repeated finished changes nothing |
| `ActiveStreams.RequestsAnswered` | src/grpc/qabstractgrpcclient.cpp:194-252 | every request of a run is answered, in order, under its own key and with its own handler |
| `ActiveStreams.ActiveStreamsOk` | src/grpc/qabstractgrpcclient.cpp:194-252 | in every run no two active streams have the same method and argument, every request is answered with a stream of its key, every stream has exactly the handlers given with the requests it answered, in order, and a stream is active exactly while unfinished or if it finished before its request returned |
| `ActiveStreams.SameRequestSameStream` | src/grpc/qabstractgrpcclient.cpp:206-213 | a request whose key is active is answered with that stream, and only a handler is added |
| `ActiveStreams.SuccessorIsSafe` | src/grpc/qabstractgrpcclient.cpp:232-247 | after a stream finished the next request opens a new one, which a second finished of the old one leaves alone |
| `GrpcClient.ClientTable.FindEqual` | src/grpc/qabstractgrpcclient.cpp:206-208 | the search returns the first stream with an equal key, or the end |
| `GrpcClient.ClientTable.Finish` | src/grpc/qabstractgrpcclient.cpp:232-244 | the whole new state of the table when a stream finishes |
| `GrpcClient.ClientTable.Stream` | src/grpc/qabstractgrpcclient.cpp:194-252 | the whole new state of the table and the stream returned |
| `GrpcClient.FanOut` | src/grpc/qgrpcstream.h:74-80 | every handler gets the data once, in the order the handlers were added |

## Left out

- The JSON serializer, the code generator (other than the equality it emits), QML bindings, Qt type converters and plugin loading.
- Network, TLS, credentials, timers and event loops; cancellation is an event of the surroundings.
- Status codes and error texts: which `QGrpcStatus` a call or stream ends with is not modelled.
- `attachChannel`, the one-second retry after an error, and requests made from another thread or without a channel.
- The conversion of method names to Latin-1: keys of the table of active streams are byte strings, and bidirectional streams, keyed by method only, are the same table with an empty argument.
- Re-entrant calls: a slot that writes to a stream from inside one of its callbacks is not modelled; callbacks run one after the other.
- Whether the native library hands back a particular tag with success or failure: both are possible at any time.
- Floating-point layout, UTF-8 and QString: fixed-width values, strings and byte arrays are byte blocks; a property that holds minus zero is an ordinary block.
- QVariant, meta-objects, QObject ownership and the memory of lazy pointers; that the iterator's copies compare positions of the same byte array is a precondition of the list and map loops.
- Equality.EqIsNormEquality: message maps of the same size with different keys count as different, because the source looks up a missing entry there and dereferences it, which has no result; null list and map elements, which it dereferences too, are not part of stored messages.
- Maps are sequences of pairs with distinct keys in iteration order; that QMap sorts them is not modelled.
- Message sizes above INT_MAX, which QByteArray and the length prefix cannot express together.
- `operator --` and `operator -=` of the iterator, which the serializer does not use.
