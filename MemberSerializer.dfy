/**
  The member serializers themselves: one write procedure and one read procedure
  standing for the Serialize / SerializeExtended methods of MemberNullableSerializer,
  MemberNonSealedSerializer and MemberReuseSerializer (ArchiveMode.Serialize and
  ArchiveMode.Deserialize). Each works step by step on the stream and on the
  session's tables, and is proved to have exactly the effect Framing specifies.
*/
module MemberSerializer {
  import opened Wrappers
  import opened Types
  import opened Wire
  import opened Registry
  import opened Framing
  import opened Session

  /** ArchiveMode.Serialize. */
  method Serialize(
    v: Variant, stream: SerializationStream, ctx: SerializerContext,
    declared: DeclaredType, dataSerializer: Option<Codec>, obj: Option<Obj>)
    returns (status: Status)
    requires stream.Valid()
    modifies stream, ctx
    ensures stream.Valid() && stream.position == old(stream.position)
    ensures ctx.readRefs == old(ctx.readRefs)
    ensures var e := WriteSpec(v, ctx.selector, ctx.externals, declared, dataSerializer, obj, old(ctx.writeRefs));
      && stream.data == old(stream.data) + e.emitted
      && ctx.writeRefs == e.refs
      && ctx.trace == old(ctx.trace) + e.events
      && status == e.status
  {
    if TakesValueTypeBranch(v, declared) {
      // Structure: no flags, no inheritance, no null.
      var codec := ExpectedCodec(LooksUpLazily(v), ctx.selector, declared, dataSerializer);
      if codec.Err? {
        return Failure(codec.error);
      }
      SerializePayload(codec.value, obj, stream, ctx);
      return Success;
    }

    if obj.None? {
      stream.Write(FlagsByte(NullFlags));
      return Success;
    }

    if v.tier == NullableTier {
      stream.Write(FlagsByte(NoFlags));
      var codec := ExpectedCodec(LooksUpLazily(v), ctx.selector, declared, dataSerializer);
      if codec.Err? {
        return Failure(codec.error);
      }
      var current := PreSerialize(codec.value, obj, ctx);
      SerializePayload(codec.value, current, stream, ctx);
      return Success;
    }

    status := SerializeReference(v, stream, ctx, declared, dataSerializer, obj.value);
  }

  /** The non-sealed and reuse tiers for a non-null object. */
  method SerializeReference(
    v: Variant, stream: SerializationStream, ctx: SerializerContext,
    declared: DeclaredType, dataSerializer: Option<Codec>, o: Obj)
    returns (status: Status)
    requires stream.Valid()
    modifies stream, ctx
    ensures stream.Valid() && stream.position == old(stream.position)
    ensures ctx.readRefs == old(ctx.readRefs)
    ensures var e := WriteReference(v, ctx.selector, ctx.externals, declared, dataSerializer, o, old(ctx.writeRefs));
      && stream.data == old(stream.data) + e.emitted
      && ctx.writeRefs == e.refs
      && ctx.trace == old(ctx.trace) + e.events
      && status == e.status
  {
    var flags := NoFlags;

    if ExternalOn(v, ctx.selector) && IsExternal(ctx.externals, o) {
      flags := flags.(isExternalIdentifiable := true);
      stream.Write(FlagsByte(flags));
      stream.Write(GuidValue(o.identifiable.value));
      return Success;
    }

    var index: Option<int> := None;
    if ReuseOn(v, ctx.selector) {
      if o in ctx.writeRefs {
        // Already written: only its index.
        flags := flags.(isReference := true);
        stream.Write(FlagsByte(flags));
        stream.Write(Int32Value(ctx.writeRefs[o]));
        return Success;
      }
      // First time: registered before anything else happens.
      index := Some(|ctx.writeRefs|);
      ctx.writeRefs := ctx.writeRefs[o := |ctx.writeRefs|];
    }

    status := SerializeFirstSeen(v, stream, ctx, declared, dataSerializer, o, index);
  }

  /** A first-seen object, registered under `index` when reuse is on. */
  method SerializeFirstSeen(
    v: Variant, stream: SerializationStream, ctx: SerializerContext,
    declared: DeclaredType, dataSerializer: Option<Codec>, o: Obj, index: Option<int>)
    returns (status: Status)
    requires stream.Valid()
    modifies stream, ctx
    ensures stream.Valid() && stream.position == old(stream.position)
    ensures ctx.readRefs == old(ctx.readRefs)
    ensures var e := WriteFirstSeen(v, ctx.selector, declared, dataSerializer, o, index, old(ctx.writeRefs));
      && stream.data == old(stream.data) + e.emitted
      && ctx.writeRefs == e.refs
      && ctx.trace == old(ctx.trace) + e.events
      && status == e.status
  {
    var flags := NoFlags;
    var decision := TypeInfoDecision(ctx.selector, declared, o.runtimeType);
    if decision.Err? {
      return Failure(decision.error);
    }
    if decision.value.Some? {
      flags := flags.(isTypeInfo := true);
    }

    ghost var typeId := if decision.value.Some? then Some(decision.value.value.serializationTypeId) else None;
    stream.Write(FlagsByte(flags));
    if index.Some? {
      stream.Write(Int32Value(index.value));
    }
    if decision.value.Some? {
      stream.Write(TypeIdBytes(decision.value.value.serializationTypeId));
    }
    assert stream.data == old(stream.data) + FrameTokens(ObjectFrame(index, typeId));

    if decision.value.Some? {
      var c := decision.value.value;
      var current := PreSerialize(c, Some(o), ctx);
      SerializePayload(c, current, stream, ctx);
    } else {
      var codec := ExpectedCodec(LooksUpLazily(v), ctx.selector, declared, dataSerializer);
      if codec.Err? {
        return Failure(codec.error);
      }
      var current := PreSerialize(codec.value, Some(o), ctx);
      SerializePayload(codec.value, current, stream, ctx);
    }
    return Success;
  }

  /** ArchiveMode.Deserialize; `objIn` is what the `ref obj` argument holds on entry. */
  method Deserialize(
    v: Variant, stream: SerializationStream, ctx: SerializerContext,
    declared: DeclaredType, dataSerializer: Option<Codec>, objIn: Option<Obj>)
    returns (r: Result<Option<Obj>, SerializationError>)
    requires stream.Valid()
    modifies stream, ctx
    ensures stream.Valid() && stream.data == old(stream.data)
    ensures ctx.writeRefs == old(ctx.writeRefs)
    ensures var e := ReadSpec(v, ctx.selector, ctx.externals, ctx.hasCallback, declared, dataSerializer, objIn,
                              old(stream.data)[old(stream.position)..], old(ctx.readRefs));
      && stream.position == old(stream.position) + e.consumed
      && ctx.readRefs == e.refs
      && ctx.trace == old(ctx.trace) + e.events
      && r == e.result
  {
    ghost var input := stream.data[stream.position..];
    ghost var e := ReadSpec(v, ctx.selector, ctx.externals, ctx.hasCallback, declared, dataSerializer, objIn,
                            input, ctx.readRefs);
    if TakesValueTypeBranch(v, declared) {
      var codec := ExpectedCodec(LooksUpLazily(v), ctx.selector, declared, dataSerializer);
      if codec.Err? {
        return Err(codec.error);
      }
      r := DeserializePayload(codec.value, stream, ctx);
      return;
    }

    var flagsRead := stream.ReadFlags();
    if flagsRead.Err? {
      return Err(flagsRead.error);
    }
    var flags := flagsRead.value;

    if v.tier == NullableTier {
      if flags.isNull {
        return Ok(None);
      }
      var codec := ExpectedCodec(LooksUpLazily(v), ctx.selector, declared, dataSerializer);
      if codec.Err? {
        return Err(codec.error);
      }
      assert stream.data[stream.position..] == input[1..];
      assert e == After(1, DecodePayload(codec.value, input[1..], false, ctx.hasCallback, -1, objIn, ctx.readRefs));
      r := DecodeWith(codec.value, stream, ctx, false, -1, objIn);
      return;
    }

    var index := -1;
    if ReuseOn(v, ctx.selector) && !flags.isNull && !flags.isExternalIdentifiable {
      var indexRead := stream.ReadInt32();
      if indexRead.Err? {
        return Err(indexRead.error);
      }
      index := indexRead.value;
      assert stream.data[stream.position..] == input[2..];
    } else {
      assert stream.data[stream.position..] == input[1..];
    }
    r := DeserializeReference(v, stream, ctx, declared, dataSerializer, objIn, flags, index);
  }

  /** The non-sealed and reuse tiers, after the flags byte and the index (when read). */
  method DeserializeReference(
    v: Variant, stream: SerializationStream, ctx: SerializerContext,
    declared: DeclaredType, dataSerializer: Option<Codec>, objIn: Option<Obj>, flags: Flags, index: int)
    returns (r: Result<Option<Obj>, SerializationError>)
    requires stream.Valid()
    modifies stream, ctx
    ensures stream.Valid() && stream.data == old(stream.data)
    ensures ctx.writeRefs == old(ctx.writeRefs)
    ensures var e := ReadReference(v, ctx.selector, ctx.externals, ctx.hasCallback, declared, dataSerializer, objIn,
                                   old(stream.data)[old(stream.position)..], old(ctx.readRefs), flags, index);
      && stream.position == old(stream.position) + e.consumed
      && ctx.readRefs == e.refs
      && ctx.trace == old(ctx.trace) + e.events
      && r == e.result
  {
    if flags.isNull {
      return Ok(None);
    }

    if ExternalOn(v, ctx.selector) && flags.isExternalIdentifiable {
      var idRead := stream.ReadGuid();
      if idRead.Err? {
        return Err(idRead.error);
      }
      if ctx.externals.None? {
        return Err(ExternalTableMissing);
      }
      var id := idRead.value;
      return Ok(if id in ctx.externals.value then Some(ctx.externals.value[id]) else None);
    }

    if ReuseOn(v, ctx.selector) && flags.isReference {
      if !(0 <= index < |ctx.readRefs|) {
        return Err(ReferenceIndexOutOfRange(index));
      }
      return Ok(ctx.readRefs[index]);
    }

    if ReuseOn(v, ctx.selector) {
      if |ctx.readRefs| != index {
        return Err(IndicesOutOfSync(|ctx.readRefs|, index));
      }
      // Reserve the slot before decoding anything.
      ctx.readRefs := ctx.readRefs + [None];
    }
    r := DeserializeFirstSeen(v, stream, ctx, declared, dataSerializer, objIn, flags, index);
  }

  /** A first-seen object whose slot (with reuse) is reserved. */
  method DeserializeFirstSeen(
    v: Variant, stream: SerializationStream, ctx: SerializerContext,
    declared: DeclaredType, dataSerializer: Option<Codec>, objIn: Option<Obj>, flags: Flags, index: int)
    returns (r: Result<Option<Obj>, SerializationError>)
    requires stream.Valid()
    requires ReuseOn(v, ctx.selector) ==> 0 <= index < |ctx.readRefs|
    modifies stream, ctx
    ensures stream.Valid() && stream.data == old(stream.data)
    ensures ctx.writeRefs == old(ctx.writeRefs)
    ensures var e := ReadFirstSeen(v, ctx.selector, ctx.hasCallback, declared, dataSerializer, objIn,
                                   old(stream.data)[old(stream.position)..], old(ctx.readRefs), flags, index);
      && stream.position == old(stream.position) + e.consumed
      && ctx.readRefs == e.refs
      && ctx.trace == old(ctx.trace) + e.events
      && r == e.result
  {
    ghost var input := stream.data[stream.position..];
    var codec: Codec;
    if flags.isTypeInfo {
      var idRead := stream.ReadTypeId();
      if idRead.Err? {
        return Err(idRead.error);
      }
      if idRead.value !in ctx.selector.byId {
        return Err(NoSerializerForTypeId(idRead.value, declared.name));
      }
      codec := ctx.selector.byId[idRead.value];
      assert stream.data[stream.position..] == input[1..];
    } else {
      var expected := ExpectedCodec(LooksUpLazily(v), ctx.selector, declared, dataSerializer);
      if expected.Err? {
        return Err(expected.error);
      }
      codec := expected.value;
    }
    r := DecodeWith(codec, stream, ctx, ReuseOn(v, ctx.selector), index, objIn);
  }

  /** PreSerialize, registration of the object, Serialize, registration again and the
      callback (the last three steps only with reuse). */
  method DecodeWith(
    c: Codec, stream: SerializationStream, ctx: SerializerContext, reuse: bool, index: int, objIn: Option<Obj>)
    returns (r: Result<Option<Obj>, SerializationError>)
    requires stream.Valid()
    requires reuse ==> 0 <= index < |ctx.readRefs|
    modifies stream, ctx
    ensures stream.Valid() && stream.data == old(stream.data)
    ensures ctx.writeRefs == old(ctx.writeRefs)
    ensures var e := DecodePayload(c, old(stream.data)[old(stream.position)..], reuse, ctx.hasCallback,
                                   index, objIn, old(ctx.readRefs));
      && stream.position == old(stream.position) + e.consumed
      && ctx.readRefs == e.refs
      && ctx.trace == old(ctx.trace) + e.events
      && r == e.result
  {
    var current := PreSerialize(c, objIn, ctx);
    if reuse {
      // Registered so that references met inside the payload resolve to it.
      ctx.AssignSlot(index, current);
    }
    var payload := DeserializePayload(c, stream, ctx);
    if payload.Err? {
      return Err(payload.error);
    }
    current := payload.value;
    if reuse {
      ctx.AssignSlot(index, current);
      ctx.InvokeCallback(index, current);
    }
    return Ok(current);
  }
}
