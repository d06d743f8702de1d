/**
  What one call of a member serializer does, as a function of its inputs: which
  tokens a write emits, how many tokens a read consumes, how the session's two
  reference tables change, which codec calls, table-slot assignments and callback
  invocations happen in which order, and whether the call returns or throws.

  The nine generated classes are one procedure, selected by a Variant:
  - the tier: MemberNullableSerializer, MemberNonSealedSerializer or MemberReuseSerializer;
  - the entry point: the static and generic SerializeExtended (value-type branch,
    lazy lookup of a missing DataSerializer), the instance Serialize of X<T> (no
    value-type branch, no lookup) or the instance Serialize of XObject<T>
    (value-type branch, no lookup).
*/
module Framing {
  import opened Wrappers
  import opened Types
  import opened Wire
  import opened Registry

  datatype Tier = NullableTier | NonSealedTier | ReuseTier

  datatype Entry = Extended | MemberInstance | MemberObjectInstance

  datatype Variant = Variant(tier: Tier, entry: Entry)

  /** Value types go straight to the codec; X<T>.Serialize has no such branch. */
  predicate TakesValueTypeBranch(v: Variant, declared: DeclaredType)
  {
    v.entry != MemberInstance && declared.isValueType
  }

  /** Only SerializeExtended looks up a missing DataSerializer. */
  predicate LooksUpLazily(v: Variant)
  {
    v.entry == Extended
  }

  /** Reference reuse is a MemberReuseSerializer feature switched by the selector. */
  predicate ReuseOn(v: Variant, sel: SerializerSelector)
  {
    v.tier == ReuseTier && sel.reuseReferences
  }

  /** External-identifiable substitution likewise. */
  predicate ExternalOn(v: Variant, sel: SerializerSelector)
  {
    v.tier == ReuseTier && sel.externalIdentifiableAsGuid
  }

  /** The object is IIdentifiable and its Id is a key of the session's external table. */
  predicate IsExternal(externals: Option<map<Guid, Obj>>, o: Obj)
  {
    o.identifiable.Some? && externals.Some? && o.identifiable.value in externals.value
  }

  datatype CodecPhase = PreSerializeCall | SerializeCall

  /** What a call does that the caller can observe besides the stream and the tables:
      each codec invocation, each assignment to a slot of the read table, and each
      invocation of the deserialize callback, in order. */
  datatype Event =
    | CodecCall(phase: CodecPhase, codec: Codec)
    | SlotAssigned(slot: int, slotValue: Option<Obj>)
    | CallbackInvoked(callbackIndex: int, callbackValue: Option<Obj>)

  /** The tokens appended, the new write table, the events and the outcome of a write. */
  datatype WriteEffect = WriteEffect(
    emitted: seq<Token>, refs: map<Obj, int>, events: seq<Event>, status: Status)

  /** The tokens consumed, the new read table, the events and the outcome of a read. */
  datatype ReadEffect = ReadEffect(
    consumed: nat, refs: seq<Option<Obj>>, events: seq<Event>, result: Result<Option<Obj>, SerializationError>)

  /** PreSerialize then Serialize on the same codec. */
  function BothCalls(c: Codec): seq<Event>
  {
    [CodecCall(PreSerializeCall, c), CodecCall(SerializeCall, c)]
  }

  // ---------------------------------------------------------------- writing

  /** ArchiveMode.Serialize: write `obj`, whose member is declared as `declared`,
      with the write table `refs`. */
  function WriteSpec(
    v: Variant, sel: SerializerSelector, externals: Option<map<Guid, Obj>>,
    declared: DeclaredType, dataSerializer: Option<Codec>, obj: Option<Obj>, refs: map<Obj, int>)
    : (e: WriteEffect)
    ensures e.status.Failure? ==> e.events == []
  {
    if TakesValueTypeBranch(v, declared) then
      match ExpectedCodec(LooksUpLazily(v), sel, declared, dataSerializer)
      case Err(e) => WriteEffect([], refs, [], Failure(e))
      case Ok(c) => WriteEffect([Payload(c, obj)], refs, [CodecCall(SerializeCall, c)], Success)
    else if obj.None? then
      WriteEffect(FrameTokens(NullFrame), refs, [], Success)
    else if v.tier == NullableTier then
      var header := FrameTokens(ObjectFrame(None, None));
      match ExpectedCodec(LooksUpLazily(v), sel, declared, dataSerializer)
      case Err(e) => WriteEffect(header, refs, [], Failure(e))
      case Ok(c) => WriteEffect(header + [Payload(c, obj)], refs, BothCalls(c), Success)
    else
      WriteReference(v, sel, externals, declared, dataSerializer, obj.value, refs)
  }

  /** The non-sealed and reuse tiers for a non-null object: external substitution,
      then back-reference, then a first-seen object with its type-info decision. */
  function WriteReference(
    v: Variant, sel: SerializerSelector, externals: Option<map<Guid, Obj>>,
    declared: DeclaredType, dataSerializer: Option<Codec>, o: Obj, refs: map<Obj, int>)
    : (e: WriteEffect)
    ensures e.status.Failure? ==> e.events == []
  {
    if ExternalOn(v, sel) && IsExternal(externals, o) then
      WriteEffect(FrameTokens(ExternalFrame(o.identifiable.value)), refs, [], Success)
    else if ReuseOn(v, sel) && o in refs then
      WriteEffect(FrameTokens(ReferenceFrame(refs[o])), refs, [], Success)
    else
      var index := if ReuseOn(v, sel) then Some(|refs|) else None;
      var registered := if ReuseOn(v, sel) then refs[o := |refs|] else refs;
      WriteFirstSeen(v, sel, declared, dataSerializer, o, index, registered)
  }

  /** A first-seen object, already registered (with reuse) under `index`: the
      type-info decision, then the header, then the payload. */
  function WriteFirstSeen(
    v: Variant, sel: SerializerSelector, declared: DeclaredType, dataSerializer: Option<Codec>,
    o: Obj, index: Option<int>, refs: map<Obj, int>)
    : (e: WriteEffect)
    ensures e.status.Failure? ==> e.events == []
  {
    match TypeInfoDecision(sel, declared, o.runtimeType)
    case Err(e) => WriteEffect([], refs, [], Failure(e))
    case Ok(Some(c)) =>
      WriteEffect(FrameTokens(ObjectFrame(index, Some(c.serializationTypeId))) + [Payload(c, Some(o))],
                  refs, BothCalls(c), Success)
    case Ok(None) =>
      var header := FrameTokens(ObjectFrame(index, None));
      match ExpectedCodec(LooksUpLazily(v), sel, declared, dataSerializer)
      case Err(e) => WriteEffect(header, refs, [], Failure(e))
      case Ok(c) => WriteEffect(header + [Payload(c, Some(o))], refs, BothCalls(c), Success)
  }

  // ---------------------------------------------------------------- reading

  /** The same effect, after `k` tokens already consumed by the caller. */
  function After(k: nat, e: ReadEffect): (r: ReadEffect)
    ensures r.consumed == k + e.consumed && r.refs == e.refs && r.events == e.events && r.result == e.result
  {
    e.(consumed := k + e.consumed)
  }

  /** ArchiveMode.Deserialize: read a member declared as `declared` from `input` (the
      stream from its cursor on), with the read table `refs`; `objIn` is the value the
      `ref obj` argument holds on entry. */
  function ReadSpec(
    v: Variant, sel: SerializerSelector, externals: Option<map<Guid, Obj>>, hasCallback: bool,
    declared: DeclaredType, dataSerializer: Option<Codec>, objIn: Option<Obj>,
    input: seq<Token>, refs: seq<Option<Obj>>)
    : (e: ReadEffect)
    ensures e.consumed <= |input|
  {
    if TakesValueTypeBranch(v, declared) then
      match ExpectedCodec(LooksUpLazily(v), sel, declared, dataSerializer)
      case Err(e) => ReadEffect(0, refs, [], Err(e))
      case Ok(c) =>
        var events := [CodecCall(SerializeCall, c)];
        match PayloadAt(c, input, 0)
        case Err(e) => ReadEffect(0, refs, events, Err(e))
        case Ok(value) => ReadEffect(1, refs, events, Ok(value))
    else
      match FlagsAt(input, 0)
      case Err(e) => ReadEffect(0, refs, [], Err(e))
      case Ok(flags) =>
        if v.tier == NullableTier then
          if flags.isNull then ReadEffect(1, refs, [], Ok(None))
          else
            match ExpectedCodec(LooksUpLazily(v), sel, declared, dataSerializer)
            case Err(e) => ReadEffect(1, refs, [], Err(e))
            case Ok(c) => After(1, DecodePayload(c, input[1..], false, hasCallback, -1, objIn, refs))
        else if ReuseOn(v, sel) && !flags.isNull && !flags.isExternalIdentifiable then
          match Int32At(input, 1)
          case Err(e) => ReadEffect(1, refs, [], Err(e))
          case Ok(index) =>
            After(2, ReadReference(v, sel, externals, hasCallback, declared, dataSerializer, objIn, input[2..], refs, flags, index))
        else
          After(1, ReadReference(v, sel, externals, hasCallback, declared, dataSerializer, objIn, input[1..], refs, flags, -1))
  }

  /** The non-sealed and reuse tiers after the flags byte and the index (when read):
      null, then external object, then back-reference, then a first-seen object. */
  function ReadReference(
    v: Variant, sel: SerializerSelector, externals: Option<map<Guid, Obj>>, hasCallback: bool,
    declared: DeclaredType, dataSerializer: Option<Codec>, objIn: Option<Obj>,
    input: seq<Token>, refs: seq<Option<Obj>>, flags: Flags, index: int)
    : (e: ReadEffect)
    ensures e.consumed <= |input|
  {
    if flags.isNull then ReadEffect(0, refs, [], Ok(None))
    else if ExternalOn(v, sel) && flags.isExternalIdentifiable then
      match GuidAt(input, 0)
      case Err(e) => ReadEffect(0, refs, [], Err(e))
      case Ok(id) =>
        if externals.None? then ReadEffect(1, refs, [], Err(ExternalTableMissing))
        else ReadEffect(1, refs, [], Ok(if id in externals.value then Some(externals.value[id]) else None))
    else if ReuseOn(v, sel) && flags.isReference then
      if 0 <= index < |refs| then ReadEffect(0, refs, [], Ok(refs[index]))
      else ReadEffect(0, refs, [], Err(ReferenceIndexOutOfRange(index)))
    else if ReuseOn(v, sel) && |refs| != index then
      ReadEffect(0, refs, [], Err(IndicesOutOfSync(|refs|, index)))
    else
      var reserved := if ReuseOn(v, sel) then refs + [None] else refs;
      ReadFirstSeen(v, sel, hasCallback, declared, dataSerializer, objIn, input, reserved, flags, index)
  }

  /** A first-seen object whose slot (with reuse) is reserved: the codec from the type
      identifier or the declared type, then the payload. */
  function ReadFirstSeen(
    v: Variant, sel: SerializerSelector, hasCallback: bool,
    declared: DeclaredType, dataSerializer: Option<Codec>, objIn: Option<Obj>,
    input: seq<Token>, refs: seq<Option<Obj>>, flags: Flags, index: int)
    : (e: ReadEffect)
    requires ReuseOn(v, sel) ==> 0 <= index < |refs|
    ensures e.consumed <= |input|
  {
    if flags.isTypeInfo then
      match TypeIdAt(input, 0)
      case Err(e) => ReadEffect(0, refs, [], Err(e))
      case Ok(typeId) =>
        if typeId !in sel.byId then
          ReadEffect(1, refs, [], Err(NoSerializerForTypeId(typeId, declared.name)))
        else
          After(1, DecodePayload(sel.byId[typeId], input[1..], ReuseOn(v, sel), hasCallback, index, objIn, refs))
    else
      match ExpectedCodec(LooksUpLazily(v), sel, declared, dataSerializer)
      case Err(e) => ReadEffect(0, refs, [], Err(e))
      case Ok(c) => DecodePayload(c, input, ReuseOn(v, sel), hasCallback, index, objIn, refs)
  }

  /** PreSerialize, then (with reuse) the object is put in its slot, then Serialize
      reads the payload; with reuse the slot is assigned again and the callback runs. */
  function DecodePayload(
    c: Codec, input: seq<Token>, reuse: bool, hasCallback: bool,
    index: int, objIn: Option<Obj>, refs: seq<Option<Obj>>)
    : (e: ReadEffect)
    requires reuse ==> 0 <= index < |refs|
    ensures e.consumed <= |input|
    ensures e.result.Ok? ==> e.consumed == 1 && input[0] == Payload(c, e.result.value)
  {
    var registered := if reuse then refs[index := objIn] else refs;
    var events := [CodecCall(PreSerializeCall, c)]
                  + (if reuse then [SlotAssigned(index, objIn)] else [])
                  + [CodecCall(SerializeCall, c)];
    match PayloadAt(c, input, 0)
    case Err(e) => ReadEffect(0, registered, events, Err(e))
    case Ok(value) =>
      var after := if reuse then
                     [SlotAssigned(index, value)] + (if hasCallback then [CallbackInvoked(index, value)] else [])
                   else [];
      ReadEffect(1, if reuse then registered[index := value] else registered, events + after, Ok(value))
  }
}
