# Xenko member serializers: reference framing, modelled in Dafny

Xenko's binary serializer writes every reference-typed member of an object through a
*member serializer*. The member serializer does not write the object's fields itself
(that is the job of the object's `DataSerializer`, called the codec below); it writes
the few tokens in front of the payload that say whether the value is null, whether it
is a back-reference to an object already written in this session, whether it is an
external `IIdentifiable` replaced by its `Guid`, and whether its runtime type differs
from the member's declared type (in which case the codec's `ObjectId` type identifier
is written). On reading, it consumes the same tokens and keeps the session's
read-side reference table (`List<object>`) in step with the write-side one
(`Dictionary<object, int>`).

`MemberSerializerGenerated.cs` holds nine generated copies of this procedure in three
tiers: `MemberNullableSerializer` (null flag only), `MemberNonSealedSerializer` (adds
type info) and `MemberReuseSerializer` (adds external substitution and reference
reuse), each as a static `SerializeExtended`, a generic `X<T>` and an `XObject<T>`.
This project models them as one procedure selected by a `Variant(tier, entry)`:

- the tier decides which features exist; the non-sealed tier is the reuse tier with
  both session switches (`ReuseReferences`, `ExternalIdentifiableAsGuid`) off;
- the entry point decides two things that really differ between the copies: whether a
  value-type member bypasses the framing (every entry point except `X<T>.Serialize`)
  and whether a missing `DataSerializer` is looked up by the declared type (only the
  `SerializeExtended` entry points).

The model has three layers:

- **Specification functions** (`Framing.WriteSpec`, `Framing.ReadSpec` and their
  parts): what one call does, as a function of its inputs — the tokens written or
  consumed, the new reference table, the ordered events (codec calls, read-table slot
  assignments, callback invocations) and the outcome (return or exception, as a
  `Result`/`Status`).
- **Imperative code** (`Session`, `MemberSerializer`): a `SerializationStream` class
  holding a token sequence and a read cursor, a `SerializerContext` class holding the
  two reference tables and the event trace, and methods that do what the C# code does
  step by step (write the flags, register the object, look up the codec, call
  `PreSerialize`, assign the slot, call `Serialize`, invoke the callback). Each
  method's postcondition ties the new stream, tables and trace to the specification
  function.
- **Properties** (`WriteProperties`, `ReadProperties`, `RoundTrip`,
  `SessionProperties`): what each case writes or reads, which errors can arise and
  why, that the write table stays a dense injective numbering and the read table only
  grows by one aligned slot, that what is written reads back as the same object with
  the two tables still corresponding, and that a whole sequence of members written in
  one session reads back in order, with indices 0, 1, 2, … handed out in first-seen
  order.

The stream is a sequence of tokens (`FlagsByte`, `Int32Value`, `GuidValue`,
`TypeIdBytes`, `Payload`) rather than bytes. The codec is a toy: its `Serialize`
writes one `Payload(codec, value)` token and reads it back; `PreSerialize` leaves the
value unchanged.

## Model

| member | source | states |
|---|---|---|
| Wire.FrameFlags | sources/core/Xenko.Core/Serialization/MemberSerializerGenerated.cs:929-993 | Each flag bit is set exactly for its header kind: IsNull for null, IsExternalIdentifiable for an external object, IsReference for a back-reference, IsTypeInfo exactly for a first-seen object whose type id is written. |
| Wire.FrameTokens | sources/core/Xenko.Core/Serialization/MemberSerializerGenerated.cs:922-1003 | A header is the flags byte first; a null is that byte alone; an external object adds its Guid; a back-reference adds its index; a first-seen object adds the index iff one is given and the type id iff one is given, in that order. |
| Wire.FlagsAt | sources/core/Xenko.Core/Serialization/MemberSerializerGenerated.cs:1029 | Reading the flags byte succeeds iff the next token is a flags byte, and returns its flags. |
| Wire.Int32At | sources/core/Xenko.Core/Serialization/MemberSerializerGenerated.cs:1035 | Reading the index succeeds iff the next token is an Int32, and returns it. |
| Wire.GuidAt | sources/core/Xenko.Core/Serialization/MemberSerializerGenerated.cs:1045 | Reading a Guid succeeds iff the next token is a Guid, and returns it. |
| Wire.TypeIdAt | sources/core/Xenko.Core/Serialization/MemberSerializerGenerated.cs:1064-1065 | Reading a type id succeeds iff the next token is a type id, and returns it. |
| Wire.PayloadAt | sources/core/Xenko.Core/Serialization/MemberSerializerGenerated.cs:1079 | A codec reads a payload iff the next token is a payload written by that same codec, and returns its value. |
| Registry.TypeInfoDecision | sources/core/Xenko.Core/Serialization/MemberSerializerGenerated.cs:356-384 | A sealed declared type never gets type info; otherwise type info is written iff the runtime type differs from the declared type, has a codec, and that codec's SerializationType is not the declared type (the cancellation case); it throws "no serializer" iff the runtime type differs and has no codec. |
| Registry.ExpectedCodec | sources/core/Xenko.Core/Serialization/MemberSerializerGenerated.cs:1011-1018 | The member's own DataSerializer is used when present; otherwise SerializeExtended looks it up by the declared type, succeeding iff the selector has one, and the instance entry points have none. |
| Framing.WriteSpec | sources/core/Xenko.Core/Serialization/MemberSerializerGenerated.cs:889-1025 | The effect of one write; a write that throws has called no codec. |
| Framing.WriteReference | sources/core/Xenko.Core/Serialization/MemberSerializerGenerated.cs:929-1023 | The effect of writing a non-null object in the non-sealed and reuse tiers; a write that throws has called no codec. |
| Framing.WriteFirstSeen | sources/core/Xenko.Core/Serialization/MemberSerializerGenerated.cs:961-1023 | The effect of writing a first-seen object's header and payload; a write that throws has called no codec. |
| Framing.ReadSpec | sources/core/Xenko.Core/Serialization/MemberSerializerGenerated.cs:1027-1113 | The effect of one read; it never consumes more tokens than the stream holds. |
| Framing.ReadReference | sources/core/Xenko.Core/Serialization/MemberSerializerGenerated.cs:1038-1112 | The effect of a read after its header fields; it never consumes more than is there. |
| Framing.ReadFirstSeen | sources/core/Xenko.Core/Serialization/MemberSerializerGenerated.cs:1062-1102 | The effect of reading a first-seen object's type id and payload; it never consumes more than is there. |
| Framing.DecodePayload | sources/core/Xenko.Core/Serialization/MemberSerializerGenerated.cs:1071-1111 | A payload decode that succeeds consumed exactly one token, a payload of the chosen codec holding the value returned. |
| Session.SerializationStream.constructor | sources/core/Xenko.Core/Serialization/MemberSerializerGenerated.cs:1029 | A stream over the given tokens with the cursor at the start. |
| Session.SerializationStream.Write | sources/core/Xenko.Core/Serialization/MemberSerializerGenerated.cs:993 | Appends one token; the cursor does not move. |
| Session.SerializationStream.ReadFlags | sources/core/Xenko.Core/Serialization/MemberSerializerGenerated.cs:1029 | Returns FlagsAt at the cursor and advances the cursor by one on success only. |
| Session.SerializationStream.ReadInt32 | sources/core/Xenko.Core/Serialization/MemberSerializerGenerated.cs:1035 | Returns Int32At at the cursor and advances by one on success only. |
| Session.SerializationStream.ReadGuid | sources/core/Xenko.Core/Serialization/MemberSerializerGenerated.cs:1045 | Returns GuidAt at the cursor and advances by one on success only. |
| Session.SerializationStream.ReadTypeId | sources/core/Xenko.Core/Serialization/MemberSerializerGenerated.cs:1065 | Returns TypeIdAt at the cursor and advances by one on success only. |
| Session.SerializationStream.ReadPayload | sources/core/Xenko.Core/Serialization/MemberSerializerGenerated.cs:1079 | Returns PayloadAt at the cursor and advances by one on success only. |
| Session.SerializerContext.constructor | sources/core/Xenko.Core/Serialization/MemberSerializerGenerated.cs:913-915 | A session with the given selector, external table and callback, and empty reference tables and trace. |
| Session.SerializerContext.InvokeCallback | sources/core/Xenko.Core/Serialization/MemberSerializerGenerated.cs:1110 | Records the callback with (index, obj) when one is registered, and nothing otherwise; the tables do not change. |
| Session.SerializerContext.AssignSlot | sources/core/Xenko.Core/Serialization/MemberSerializerGenerated.cs:1076 | Sets one slot of the read table and records it; nothing else changes. |
| Session.PreSerialize | sources/core/Xenko.Core/Serialization/MemberSerializerGenerated.cs:1021 | Calls the codec's PreSerialize: the value is unchanged and the call is recorded. |
| Session.SerializePayload | sources/core/Xenko.Core/Serialization/MemberSerializerGenerated.cs:1022 | Calls the codec's Serialize on write: appends the payload token and records the call. |
| Session.DeserializePayload | sources/core/Xenko.Core/Serialization/MemberSerializerGenerated.cs:1101 | Calls the codec's Serialize on read: returns PayloadAt at the cursor, advances on success, records the call. |
| MemberSerializer.Serialize | sources/core/Xenko.Core/Serialization/MemberSerializerGenerated.cs:889-1025 | Appends exactly WriteSpec's tokens, leaves the write table as WriteSpec's, appends its events to the trace and returns its status; the cursor and the read table do not change. |
| MemberSerializer.SerializeReference | sources/core/Xenko.Core/Serialization/MemberSerializerGenerated.cs:929-1023 | Does exactly what WriteReference says: external flag and Guid, or back-reference flag and index, or registration under the table size followed by the first-seen write. |
| MemberSerializer.SerializeFirstSeen | sources/core/Xenko.Core/Serialization/MemberSerializerGenerated.cs:961-1023 | Does exactly what WriteFirstSeen says: flags, index, type id when decided, PreSerialize and Serialize on the chosen codec. |
| MemberSerializer.Deserialize | sources/core/Xenko.Core/Serialization/MemberSerializerGenerated.cs:1027-1113 | Advances the cursor by ReadSpec's count, leaves the read table as ReadSpec's, appends its events and returns its result; the stream contents and the write table do not change. |
| MemberSerializer.DeserializeReference | sources/core/Xenko.Core/Serialization/MemberSerializerGenerated.cs:1038-1112 | Does exactly what ReadReference says: null, external lookup, back-reference, the out-of-sync check and slot reservation, then the first-seen read. |
| MemberSerializer.DeserializeFirstSeen | sources/core/Xenko.Core/Serialization/MemberSerializerGenerated.cs:1062-1102 | Does exactly what ReadFirstSeen says: the codec from the type id (or the declared type), then the payload. |
| MemberSerializer.DecodeWith | sources/core/Xenko.Core/Serialization/MemberSerializerGenerated.cs:1071-1111 | Does exactly what DecodePayload says: PreSerialize, slot assignment, Serialize, slot assignment and callback, in that order. |
| WriteProperties.WriteNull | sources/core/Xenko.Core/Serialization/MemberSerializerGenerated.cs:922-926 | A null reference is written as one IsNull flags byte and nothing else: no codec call, table unchanged. |
| WriteProperties.WriteValueType | sources/core/Xenko.Core/Serialization/MemberSerializerGenerated.cs:16-31 | A value type gets no framing: at most one token, the payload; only Serialize runs (never PreSerialize); the table is unchanged; success iff the payload is written. |
| WriteProperties.WriteFailures | sources/core/Xenko.Core/Serialization/MemberSerializerGenerated.cs:363-408 | A write throws only "no serializer" for a type the selector has no codec for, or for an instance member serializer built without a DataSerializer. |
| WriteProperties.WriteValueTypeLookupFails | sources/core/Xenko.Core/Serialization/MemberSerializerGenerated.cs:18-24 | Conversely, when no codec is found for a value type the write throws that lookup's error before writing anything. |
| WriteProperties.WriteNullableLookupFails | sources/core/Xenko.Core/Serialization/MemberSerializerGenerated.cs:52-59 | In the nullable tier, when the declared type's codec is not found the write of a non-null object throws after emitting the flags byte alone. |
| WriteProperties.WriteRuntimeTypeLookupFails | sources/core/Xenko.Core/Serialization/MemberSerializerGenerated.cs:963-972 | A first-seen object whose runtime type differs from a non-sealed declared type and has no codec makes the write throw "no serializer" for that runtime type, with nothing written. |
| WriteProperties.WriteExpectedTypeLookupFails | sources/core/Xenko.Core/Serialization/MemberSerializerGenerated.cs:1011-1017 | A first-seen object without type info whose declared type's codec is not found makes the write throw after its flags byte and (with reuse) index. |
| WriteProperties.WriteExternal | sources/core/Xenko.Core/Serialization/MemberSerializerGenerated.cs:931-942 | A known IIdentifiable is written as the IsExternalIdentifiable flag and its Guid, before and regardless of reuse: no index, no type info, no codec call, table unchanged. |
| WriteProperties.WriteBackReference | sources/core/Xenko.Core/Serialization/MemberSerializerGenerated.cs:945-955 | With reuse on, an object already written is the IsReference flag and its stored index only; the table is unchanged. |
| WriteProperties.WriteFirstSeenRegisters | sources/core/Xenko.Core/Serialization/MemberSerializerGenerated.cs:956-959 | A first-seen object gains exactly one entry, the old table size, even when the write then throws; without reuse the table is untouched. |
| WriteProperties.WriteFirstSeenLayout | sources/core/Xenko.Core/Serialization/MemberSerializerGenerated.cs:992-1023 | A first-seen object is written as flags, index iff reuse is on, type id iff type info is decided, then the payload; IsTypeInfo is set exactly then and no other bit; the codec is the runtime type's with type info and the expected codec without; PreSerialize then Serialize on it. |
| WriteProperties.RegisterFresh | sources/core/Xenko.Core/Serialization/MemberSerializerGenerated.cs:958 | Adding an absent object under the table's size grows the table by one and keeps it a dense injective numbering. |
| WriteProperties.WriteRegisters | sources/core/Xenko.Core/Serialization/MemberSerializerGenerated.cs:945-959 | A write adds the written object to the write table, under the old size, exactly when reuse is on, the member is not a value type, the object is not replaced by its Guid and is not yet there; otherwise the table is unchanged. |
| WriteProperties.WriteKeepsTableValid | sources/core/Xenko.Core/Serialization/MemberSerializerGenerated.cs:945-959 | Every write keeps the write table a dense injective numbering, and its exact effect on the table is: the written object is added under the old size when reuse is on, the member is not a value type, the object is not replaced by its Guid and is not yet in the table; otherwise the table is unchanged. |
| ReadProperties.ReadNull | sources/core/Xenko.Core/Serialization/MemberSerializerGenerated.cs:1035-1040 | An IsNull flags byte reads as null after one token: no index, no codec call, table unchanged. |
| ReadProperties.ReadValueType | sources/core/Xenko.Core/Serialization/MemberSerializerGenerated.cs:16-31 | A value type reads no framing: at most one token, the payload, only Serialize runs, the table is unchanged. |
| ReadProperties.ReadValueTypeLookupFails | sources/core/Xenko.Core/Serialization/MemberSerializerGenerated.cs:18-24 | When no codec is found for a value type the read throws that lookup's error having consumed nothing. |
| ReadProperties.ReadNullableLookupFails | sources/core/Xenko.Core/Serialization/MemberSerializerGenerated.cs:79-86 | In the nullable tier, when the declared type's codec is not found the read of a non-null value throws after the flags byte. |
| ReadProperties.ReadUnknownTypeId | sources/core/Xenko.Core/Serialization/MemberSerializerGenerated.cs:1062-1069 | A first-seen header whose type id no codec has makes the read throw "no serializer for type id" with that id and the declared type, after the header, with the slot already reserved when reuse is on. |
| ReadProperties.ReadExpectedTypeLookupFails | sources/core/Xenko.Core/Serialization/MemberSerializerGenerated.cs:1083-1089 | A first-seen header without type id whose declared type's codec is not found makes the read throw after the header, with the slot already reserved when reuse is on. |
| ReadProperties.DecodePayloadBounds | sources/core/Xenko.Core/Serialization/MemberSerializerGenerated.cs:1071-1111 | Decoding a payload fails only on the stream and, with reuse, changes only the reserved slot. |
| ReadProperties.ReadFirstSeenBounds | sources/core/Xenko.Core/Serialization/MemberSerializerGenerated.cs:1062-1102 | Reading a first-seen body raises only explained codec or stream errors and changes only the reserved slot. |
| ReadProperties.ReadReferenceBounds | sources/core/Xenko.Core/Serialization/MemberSerializerGenerated.cs:1038-1112 | After the header a read keeps every existing slot, adds at most one, and raises only explained errors. |
| ReadProperties.ReadErrorsAndTable | sources/core/Xenko.Core/Serialization/MemberSerializerGenerated.cs:1027-1113 | Every read error has its cause (no codec for a type or type id, indices out of sync, index out of range, missing external table, missing DataSerializer, stream); the read table is unchanged or, with reuse, grows by exactly one slot after the old ones. |
| ReadProperties.ReadBackReference | sources/core/Xenko.Core/Serialization/MemberSerializerGenerated.cs:1050-1053 | With reuse on, IsReference reads flags and index and yields the object in that slot (or an out-of-range error), table unchanged, no codec call. |
| ReadProperties.ReadExternal | sources/core/Xenko.Core/Serialization/MemberSerializerGenerated.cs:1042-1049 | With the external mode on, IsExternalIdentifiable reads a Guid and yields the external object, or null when the key is absent; no index, no codec, table unchanged. |
| ReadProperties.FirstSeenEvents | sources/core/Xenko.Core/Serialization/MemberSerializerGenerated.cs:1071-1110 | The reuse decode makes four observable steps, five when a callback is registered. |
| ReadProperties.ReadFirstSeenReuse | sources/core/Xenko.Core/Serialization/MemberSerializerGenerated.cs:1056-1111 | With reuse on, an index other than the table size throws "out of sync" and changes nothing; otherwise the table grows to index+1 keeping the old slots, and on success slot index holds the value read, after PreSerialize, slot assignment, Serialize, slot assignment and callback with (index, obj), in that order. |
| RoundTrip.CorrespondsAfterRegister | sources/core/Xenko.Core/Serialization/MemberSerializerGenerated.cs:958 | Registering a first-seen object on both sides keeps the write and read tables in step. |
| RoundTrip.DecodePayloadRoundTrip | sources/core/Xenko.Core/Serialization/MemberSerializerGenerated.cs:1071-1111 | A payload written by a codec is read back by it as the same value, consuming one token. |
| RoundTrip.FirstSeenRoundTrip | sources/core/Xenko.Core/Serialization/MemberSerializerGenerated.cs:1062-1102 | A first-seen body (type id when flagged, then payload) reads back as the object written. |
| RoundTrip.WrittenCodec | sources/core/Xenko.Core/Serialization/MemberSerializerGenerated.cs:961-1018 | The codec a first-seen object is written with; the type id written with it is that codec's own. |
| RoundTrip.WriteFirstSeenShape | sources/core/Xenko.Core/Serialization/MemberSerializerGenerated.cs:992-1023 | What a first-seen write emits, in terms of the written codec and type id. |
| RoundTrip.WrittenCodecFoundById | sources/core/Xenko.Core/Serialization/MemberSerializerGenerated.cs:1067 | With a consistent selector, the type id written finds again the codec the writer chose. |
| RoundTrip.ExternalRoundTrip | sources/core/Xenko.Core/Serialization/MemberSerializerGenerated.cs:1042-1049 | An external object reads back through its Guid as itself, tables unchanged. |
| RoundTrip.BackReferenceRoundTrip | sources/core/Xenko.Core/Serialization/MemberSerializerGenerated.cs:1050-1053 | A back-reference reads back through the corresponding slot as the object written. |
| RoundTrip.FirstSeenReuseRoundTrip | sources/core/Xenko.Core/Serialization/MemberSerializerGenerated.cs:1056-1111 | With reuse, a first-seen object's index is the reader's table size, it reads back as itself, and the tables still correspond. |
| RoundTrip.FirstSeenPlainRoundTrip | sources/core/Xenko.Core/Serialization/MemberSerializerGenerated.cs:419-461 | Without reuse, a first-seen object reads back as itself with no table change. |
| RoundTrip.ReferenceRoundTrip | sources/core/Xenko.Core/Serialization/MemberSerializerGenerated.cs:929-1111 | Any successful non-null write in the non-sealed and reuse tiers reads back as the same object, consuming exactly what was written, tables still corresponding. |
| RoundTrip.RoundTripValue | sources/core/Xenko.Core/Serialization/MemberSerializerGenerated.cs:889-1113 | For every variant, whatever a successful write emits, followed by anything, reads back as the value written, consuming exactly the written tokens, with the two tables still corresponding. |
| SessionProperties.ReadAll | sources/core/Xenko.Core/Serialization/MemberSerializerGenerated.cs:1027-1113 | Reading members in a row, each with its own serializer, never passes the stream's end and, without error, yields one value per member. |
| SessionProperties.MemberMirrors | sources/core/Xenko.Core/Serialization/MemberSerializerGenerated.cs:889-1113 | For a consistent selector and an object the external table resolves, a member serializer's read undoes its write from any pair of corresponding tables, whatever follows in the stream. |
| SessionProperties.RoundTripAll | sources/core/Xenko.Core/Serialization/MemberSerializerGenerated.cs:889-1113 | Members written one after another, each by its own serializer, sharing the session's two tables, read back in order as the same values, consuming exactly what was written, with the tables still related by any relation each member's read and write keep. |
| SessionProperties.MembersMirror | sources/core/Xenko.Core/Serialization/MemberSerializerGenerated.cs:889-1113 | For a consistent selector and resolvable external objects, every member of a session, whatever its variant, declared type and DataSerializer, reads back what it wrote while keeping the two tables corresponding. |
| SessionProperties.SessionRoundTrip | sources/core/Xenko.Core/Serialization/MemberSerializerGenerated.cs:889-1113 | The same for a session whose members have any variants, declared types and DataSerializers, with a consistent selector and resolvable external objects. |
| SessionProperties.FirstMet | sources/core/Xenko.Core/Serialization/MemberSerializerGenerated.cs:945-958 | The objects a session registers, in first-seen order, extend those already seen and contain only those and the values written; null values, value types, Guid-replaced objects and members without reuse add none. |
| SessionProperties.IndexesAfterRegister | sources/core/Xenko.Core/Serialization/MemberSerializerGenerated.cs:958 | Registering a new object numbers it with the next index in first-seen order. |
| SessionProperties.WriteAllIndices | sources/core/Xenko.Core/Serialization/MemberSerializerGenerated.cs:945-959 | After a session writes members of any variants, the write table gives the k-th object of FirstMet the index k and holds nothing else: indices 0, 1, 2, ... in first-registration order. |
| SessionProperties.WriteTwiceExample | sources/core/Xenko.Core/Serialization/MemberSerializerGenerated.cs:945-1023 | Writing the same object twice through reuse members emits flags, index 0 and the payload, then IsReference and index 0; the table is {b: 0}. |

## Left out

- Byte encodings: flags, the 32-bit index, the Guid and the 16-byte type id are single tokens, so the flag bit values, endianness and `ObjectId.HashSize` bytes are not modelled; `HashSize` is taken as 16, its value in Xenko, which this file does not show.
- A token of the wrong kind is an `UnexpectedToken` error and a missing one `EndOfStream`; the C# code would instead reinterpret whatever bytes are there, or throw from the stream.
- The index is an unbounded integer; the C# `int` would wrap after 2^31 objects in one session.
- Reflection is reduced to a declared type's name and its `isValueType`/`isSealed` flags, and an object's runtime type name; `(T)` casts and `InvalidCastException` are not modelled.
- Codec internals and `SerializerSelector` internals are not part of this model: the selector is two finite maps and two switches, the codec a toy that writes one payload token; the real recursion of a codec into the object's own members (and so the behaviour of cyclic object graphs) is not modelled.
- `PreSerialize` leaves the value unchanged in the model; a codec that creates the object there is not modelled, so on reading into a null member the slot holds null between `PreSerialize` and `Serialize`.
- The session-level lemmas read each member into a member that holds null on entry; a read into a member that already holds an object (`ref obj`) is modelled by `Framing.ReadSpec`'s `objIn` but not by those lemmas.
- `ArchiveMode` is split into a write and a read operation; exceptions are `Status`/`Result` values.
- The `NullReferenceException`s of the source are named errors: a missing `DataSerializer` in the instance entry points (`DataSerializerMissing`) and a missing external table on reading an external object (`ExternalTableMissing`); the writer's external check is null-safe, as in the source.
- The session's property storage (`context.Get(...)`) is reduced to the fields of `SerializerContext`; the deserialize callback is a recorded event.
- `SessionProperties.SessionRoundTrip`: holds for a selector whose type and id lookups agree (`SelectorConsistent`) and an external table that maps each external object's Guid back to it; the source relies on both without checking them (`SessionProperties.MemberMirrors` carries the same two premises).
- The copies are not alike in two ways, and the model follows each: the instance `Serialize` of `MemberNullableSerializer<T>` (line 106), `MemberNonSealedSerializer<T>` (line 472) and `MemberReuseSerializer<T>` (line 1123) has no value-type branch, so a value-type member there is framed like a reference; and only the `SerializeExtended` entry points look up a missing `DataSerializer`.
