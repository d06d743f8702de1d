/**
  The mutable state one serialization session threads through every member call:
  the SerializationStream and the context that owns the reference tables, the
  external-identifiable table and the deserialize callback. Also the stand-in for
  the payload codec (DataSerializer.PreSerialize / Serialize), whose field-level
  work is not part of this model.
*/
module Session {
  import opened Wrappers
  import opened Types
  import opened Wire
  import opened Registry
  import opened Framing

  /** A SerializationStream: tokens appended on write, consumed at a cursor on read. */
  class SerializationStream {
    var data: seq<Token>
    var position: nat

    ghost predicate Valid()
      reads this
    {
      position <= |data|
    }

    /** A stream holding `input`, with its cursor at the start. */
    constructor (input: seq<Token>)
      ensures Valid() && data == input && position == 0
    {
      data := input;
      position := 0;
    }

    method Write(t: Token)
      requires Valid()
      modifies this
      ensures Valid() && data == old(data) + [t] && position == old(position)
    {
      data := data + [t];
    }

    /** ReadByte of the flags. */
    method ReadFlags() returns (r: Result<Flags, SerializationError>)
      requires Valid()
      modifies this
      ensures Valid() && data == old(data)
      ensures r == FlagsAt(data, old(position))
      ensures position == old(position) + (if r.Ok? then 1 else 0)
    {
      r := FlagsAt(data, position);
      if r.Ok? { position := position + 1; }
    }

    /** ReadInt32 of a reference index. */
    method ReadInt32() returns (r: Result<int, SerializationError>)
      requires Valid()
      modifies this
      ensures Valid() && data == old(data)
      ensures r == Int32At(data, old(position))
      ensures position == old(position) + (if r.Ok? then 1 else 0)
    {
      r := Int32At(data, position);
      if r.Ok? { position := position + 1; }
    }

    /** Read<Guid> of an external object's key. */
    method ReadGuid() returns (r: Result<Guid, SerializationError>)
      requires Valid()
      modifies this
      ensures Valid() && data == old(data)
      ensures r == GuidAt(data, old(position))
      ensures position == old(position) + (if r.Ok? then 1 else 0)
    {
      r := GuidAt(data, position);
      if r.Ok? { position := position + 1; }
    }

    /** The HashSize bytes of a type identifier. */
    method ReadTypeId() returns (r: Result<ObjectId, SerializationError>)
      requires Valid()
      modifies this
      ensures Valid() && data == old(data)
      ensures r == TypeIdAt(data, old(position))
      ensures position == old(position) + (if r.Ok? then 1 else 0)
    {
      r := TypeIdAt(data, position);
      if r.Ok? { position := position + 1; }
    }

    /** The payload that codec `c` reads back. */
    method ReadPayload(c: Codec) returns (r: Result<Option<Obj>, SerializationError>)
      requires Valid()
      modifies this
      ensures Valid() && data == old(data)
      ensures r == PayloadAt(c, data, old(position))
      ensures position == old(position) + (if r.Ok? then 1 else 0)
    {
      r := PayloadAt(c, data, position);
      if r.Ok? { position := position + 1; }
    }
  }

  /** The SerializerContext of one session. The write table maps each object written
      in full to its index (ObjectSerializeReferences); the read table lists the
      objects read in full, by index (ObjectDeserializeReferences). */
  class SerializerContext {
    const selector: SerializerSelector
    const externals: Option<map<Guid, Obj>>
    const hasCallback: bool
    var writeRefs: map<Obj, int>
    var readRefs: seq<Option<Obj>>
    var trace: seq<Event>

    /** A fresh session: both tables empty, nothing observed yet. */
    constructor (selector: SerializerSelector, externals: Option<map<Guid, Obj>>, hasCallback: bool)
      ensures this.selector == selector && this.externals == externals && this.hasCallback == hasCallback
      ensures writeRefs == map[] && readRefs == [] && trace == []
    {
      this.selector := selector;
      this.externals := externals;
      this.hasCallback := hasCallback;
      writeRefs := map[];
      readRefs := [];
      trace := [];
    }

    /** ObjectDeserializeCallback.Invoke(index, obj), when the session has one. */
    method InvokeCallback(index: int, value: Option<Obj>)
      modifies this
      ensures writeRefs == old(writeRefs) && readRefs == old(readRefs)
      ensures trace == old(trace) + (if hasCallback then [CallbackInvoked(index, value)] else [])
    {
      if hasCallback {
        trace := trace + [CallbackInvoked(index, value)];
      }
    }

    /** objectReferences[index] = value on the read table. */
    method AssignSlot(index: int, value: Option<Obj>)
      requires 0 <= index < |readRefs|
      modifies this
      ensures writeRefs == old(writeRefs) && readRefs == old(readRefs)[index := value]
      ensures trace == old(trace) + [SlotAssigned(index, value)]
    {
      readRefs := readRefs[index := value];
      trace := trace + [SlotAssigned(index, value)];
    }
  }

  /** DataSerializer.PreSerialize: the call is recorded; the stand-in codec leaves the
      object and the stream as they are. */
  method PreSerialize(c: Codec, obj: Option<Obj>, ctx: SerializerContext) returns (obj': Option<Obj>)
    modifies ctx
    ensures obj' == obj
    ensures ctx.writeRefs == old(ctx.writeRefs) && ctx.readRefs == old(ctx.readRefs)
    ensures ctx.trace == old(ctx.trace) + [CodecCall(PreSerializeCall, c)]
  {
    ctx.trace := ctx.trace + [CodecCall(PreSerializeCall, c)];
    obj' := obj;
  }

  /** DataSerializer.Serialize in ArchiveMode.Serialize: writes the payload of `obj`. */
  method SerializePayload(c: Codec, obj: Option<Obj>, stream: SerializationStream, ctx: SerializerContext)
    requires stream.Valid()
    modifies stream, ctx
    ensures stream.Valid() && stream.data == old(stream.data) + [Payload(c, obj)]
    ensures stream.position == old(stream.position)
    ensures ctx.writeRefs == old(ctx.writeRefs) && ctx.readRefs == old(ctx.readRefs)
    ensures ctx.trace == old(ctx.trace) + [CodecCall(SerializeCall, c)]
  {
    ctx.trace := ctx.trace + [CodecCall(SerializeCall, c)];
    stream.Write(Payload(c, obj));
  }

  /** DataSerializer.Serialize in ArchiveMode.Deserialize: reads a payload back. */
  method DeserializePayload(c: Codec, stream: SerializationStream, ctx: SerializerContext)
    returns (r: Result<Option<Obj>, SerializationError>)
    requires stream.Valid()
    modifies stream, ctx
    ensures stream.Valid() && stream.data == old(stream.data)
    ensures r == PayloadAt(c, stream.data, old(stream.position))
    ensures stream.position == old(stream.position) + (if r.Ok? then 1 else 0)
    ensures ctx.writeRefs == old(ctx.writeRefs) && ctx.readRefs == old(ctx.readRefs)
    ensures ctx.trace == old(ctx.trace) + [CodecCall(SerializeCall, c)]
  {
    ctx.trace := ctx.trace + [CodecCall(SerializeCall, c)];
    r := stream.ReadPayload(c);
  }
}
