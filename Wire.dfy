/**
  The wire: the flags byte (SerializeClassFlags), the tokens a SerializationStream
  holds, the header that frames a reference-type value, and the primitive reads.
*/
module Wire {
  import opened Wrappers
  import opened Types

  /** SerializeClassFlags as four distinct bits. A reader tests each bit alone. */
  datatype Flags = Flags(isNull: bool, isTypeInfo: bool, isReference: bool, isExternalIdentifiable: bool)

  /** SerializeClassFlags.None */
  const NoFlags := Flags(false, false, false, false)

  /** SerializeClassFlags.IsNull, written alone for a null reference. */
  const NullFlags := NoFlags.(isNull := true)

  /** The stream's contents: the flags byte, an Int32 reference index, a Guid, the
      HashSize bytes of a type identifier, and the payload a codec writes for a value. */
  datatype Token =
    | FlagsByte(flags: Flags)
    | Int32Value(value: int)
    | GuidValue(id: Guid)
    | TypeIdBytes(typeId: ObjectId)
    | Payload(codec: Codec, content: Option<Obj>)

  /** The header written before a reference-type value; exactly one case applies. */
  datatype Frame =
    | NullFrame
    | ExternalFrame(id: Guid)
    | ReferenceFrame(reference: int)
    | ObjectFrame(index: Option<int>, typeId: Option<ObjectId>)

  /** The flags byte of a header: one bit per case, plus IsTypeInfo exactly when an
      object header carries a type identifier. */
  function FrameFlags(f: Frame): (flags: Flags)
    ensures flags.isNull <==> f.NullFrame?
    ensures flags.isExternalIdentifiable <==> f.ExternalFrame?
    ensures flags.isReference <==> f.ReferenceFrame?
    ensures flags.isTypeInfo <==> f.ObjectFrame? && f.typeId.Some?
  {
    match f
    case NullFrame => NullFlags
    case ExternalFrame(_) => NoFlags.(isExternalIdentifiable := true)
    case ReferenceFrame(_) => NoFlags.(isReference := true)
    case ObjectFrame(_, typeId) => NoFlags.(isTypeInfo := typeId.Some?)
  }

  /** The tokens of a header, in wire order: flags first, then the Guid, the index,
      or the index (when present) followed by the type identifier (when present). */
  function FrameTokens(f: Frame): (ts: seq<Token>)
    ensures |ts| >= 1 && ts[0] == FlagsByte(FrameFlags(f))
    ensures f.NullFrame? ==> |ts| == 1
    ensures f.ExternalFrame? ==> ts == [FlagsByte(FrameFlags(f)), GuidValue(f.id)]
    ensures f.ReferenceFrame? ==> ts == [FlagsByte(FrameFlags(f)), Int32Value(f.reference)]
    ensures f.ObjectFrame? ==>
      |ts| == 1 + (if f.index.Some? then 1 else 0) + (if f.typeId.Some? then 1 else 0)
    ensures f.ObjectFrame? && f.index.Some? ==> ts[1] == Int32Value(f.index.value)
    ensures f.ObjectFrame? && f.typeId.Some? ==> ts[|ts| - 1] == TypeIdBytes(f.typeId.value)
  {
    [FlagsByte(FrameFlags(f))] +
    match f
    case NullFrame => []
    case ExternalFrame(id) => [GuidValue(id)]
    case ReferenceFrame(reference) => [Int32Value(reference)]
    case ObjectFrame(index, typeId) =>
      (if index.Some? then [Int32Value(index.value)] else []) +
      (if typeId.Some? then [TypeIdBytes(typeId.value)] else [])
  }

  // The primitive reads. Each looks at the token at `pos` and fails when the
  // stream is exhausted or holds a token of another kind.

  function FlagsAt(input: seq<Token>, pos: nat): (r: Result<Flags, SerializationError>)
    ensures r.Ok? <==> pos < |input| && input[pos].FlagsByte?
    ensures r.Ok? ==> input[pos] == FlagsByte(r.value)
  {
    if pos >= |input| then Err(EndOfStream)
    else if input[pos].FlagsByte? then Ok(input[pos].flags)
    else Err(UnexpectedToken)
  }

  function Int32At(input: seq<Token>, pos: nat): (r: Result<int, SerializationError>)
    ensures r.Ok? <==> pos < |input| && input[pos].Int32Value?
    ensures r.Ok? ==> input[pos] == Int32Value(r.value)
  {
    if pos >= |input| then Err(EndOfStream)
    else if input[pos].Int32Value? then Ok(input[pos].value)
    else Err(UnexpectedToken)
  }

  function GuidAt(input: seq<Token>, pos: nat): (r: Result<Guid, SerializationError>)
    ensures r.Ok? <==> pos < |input| && input[pos].GuidValue?
    ensures r.Ok? ==> input[pos] == GuidValue(r.value)
  {
    if pos >= |input| then Err(EndOfStream)
    else if input[pos].GuidValue? then Ok(input[pos].id)
    else Err(UnexpectedToken)
  }

  function TypeIdAt(input: seq<Token>, pos: nat): (r: Result<ObjectId, SerializationError>)
    ensures r.Ok? <==> pos < |input| && input[pos].TypeIdBytes?
    ensures r.Ok? ==> input[pos] == TypeIdBytes(r.value)
  {
    if pos >= |input| then Err(EndOfStream)
    else if input[pos].TypeIdBytes? then Ok(input[pos].typeId)
    else Err(UnexpectedToken)
  }

  /** A codec reads back only a payload that it wrote itself. */
  function PayloadAt(c: Codec, input: seq<Token>, pos: nat): (r: Result<Option<Obj>, SerializationError>)
    ensures r.Ok? <==> pos < |input| && input[pos].Payload? && input[pos].codec == c
    ensures r.Ok? ==> input[pos] == Payload(c, r.value)
  {
    if pos >= |input| then Err(EndOfStream)
    else if input[pos].Payload? && input[pos].codec == c then Ok(input[pos].content)
    else Err(UnexpectedToken)
  }
}
