/**
  What a single read promises: how much of the stream it consumes in each case,
  how it changes the read table (append only, one slot at most), the order in
  which a first-seen object's slot, codec calls and callback happen, and when it throws.
*/
module ReadProperties {
  import opened Wrappers
  import opened Types
  import opened Wire
  import opened Registry
  import opened Framing

  /** A flags byte with IsNull is a null (or default) value: nothing more is read, no
      codec runs and the table does not change, whatever the other bits say. */
  lemma ReadNull(
    v: Variant, sel: SerializerSelector, externals: Option<map<Guid, Obj>>, hasCallback: bool,
    declared: DeclaredType, dataSerializer: Option<Codec>, objIn: Option<Obj>,
    input: seq<Token>, refs: seq<Option<Obj>>)
    requires !TakesValueTypeBranch(v, declared)
    requires |input| > 0 && input[0].FlagsByte? && input[0].flags.isNull
    ensures ReadSpec(v, sel, externals, hasCallback, declared, dataSerializer, objIn, input, refs)
            == ReadEffect(1, refs, [], Ok(None))
  {
  }

  /** A value type reads no framing: at most one token, which is the payload the
      result comes from; only Serialize runs; the table does not change. */
  lemma ReadValueType(
    v: Variant, sel: SerializerSelector, externals: Option<map<Guid, Obj>>, hasCallback: bool,
    declared: DeclaredType, dataSerializer: Option<Codec>, objIn: Option<Obj>,
    input: seq<Token>, refs: seq<Option<Obj>>)
    requires TakesValueTypeBranch(v, declared)
    ensures var e := ReadSpec(v, sel, externals, hasCallback, declared, dataSerializer, objIn, input, refs);
      && e.refs == refs
      && (forall ev :: ev in e.events ==> ev.CodecCall? && ev.phase == SerializeCall)
      && (e.result.Ok? <==> e.consumed == 1)
      && e.consumed <= 1
      && (e.result.Ok? ==> input[0].Payload? && input[0].content == e.result.value)
  {
  }

  /** Conversely, a failed codec lookup for a value type makes the read throw before
      anything is read. */
  lemma ReadValueTypeLookupFails(
    v: Variant, sel: SerializerSelector, externals: Option<map<Guid, Obj>>, hasCallback: bool,
    declared: DeclaredType, dataSerializer: Option<Codec>, objIn: Option<Obj>,
    input: seq<Token>, refs: seq<Option<Obj>>)
    requires TakesValueTypeBranch(v, declared)
    requires ExpectedCodec(LooksUpLazily(v), sel, declared, dataSerializer).Err?
    ensures ReadSpec(v, sel, externals, hasCallback, declared, dataSerializer, objIn, input, refs)
            == ReadEffect(0, refs, [], Err(ExpectedCodec(LooksUpLazily(v), sel, declared, dataSerializer).error))
  {
  }

  /** In the nullable tier a failed lookup of the declared type's codec makes the read
      of a non-null value throw after its flags byte. */
  lemma ReadNullableLookupFails(
    v: Variant, sel: SerializerSelector, externals: Option<map<Guid, Obj>>, hasCallback: bool,
    declared: DeclaredType, dataSerializer: Option<Codec>, objIn: Option<Obj>,
    input: seq<Token>, refs: seq<Option<Obj>>, f: Flags)
    requires !TakesValueTypeBranch(v, declared) && v.tier == NullableTier
    requires |input| > 0 && input[0] == FlagsByte(f) && !f.isNull
    requires ExpectedCodec(LooksUpLazily(v), sel, declared, dataSerializer).Err?
    ensures ReadSpec(v, sel, externals, hasCallback, declared, dataSerializer, objIn, input, refs)
            == ReadEffect(1, refs, [], Err(ExpectedCodec(LooksUpLazily(v), sel, declared, dataSerializer).error))
  {
  }

  /** A first-seen header carrying a type id that no codec has makes the read throw
      "no serializer for type id", naming that id and the declared type, once the
      header is consumed; with reuse on, the object's slot is already reserved. */
  lemma ReadUnknownTypeId(
    v: Variant, sel: SerializerSelector, externals: Option<map<Guid, Obj>>, hasCallback: bool,
    declared: DeclaredType, dataSerializer: Option<Codec>, objIn: Option<Obj>,
    id: ObjectId, refs: seq<Option<Obj>>, rest: seq<Token>)
    requires !TakesValueTypeBranch(v, declared) && v.tier != NullableTier
    requires id !in sel.byId
    ensures var header := FrameTokens(ObjectFrame(if ReuseOn(v, sel) then Some(|refs|) else None, Some(id)));
      ReadSpec(v, sel, externals, hasCallback, declared, dataSerializer, objIn, header + rest, refs)
      == ReadEffect(|header|, if ReuseOn(v, sel) then refs + [None] else refs, [],
                    Err(NoSerializerForTypeId(id, declared.name)))
  {
    var header := FrameTokens(ObjectFrame(if ReuseOn(v, sel) then Some(|refs|) else None, Some(id)));
    var input := header + rest;
    var k := |header| - 1;
    assert input[0] == header[0] && input[k] == TypeIdBytes(id);
    assert ReuseOn(v, sel) ==> input[1] == Int32Value(|refs|);
    assert input[k..][0] == TypeIdBytes(id);
  }

  /** A first-seen header without type id whose declared type's codec cannot be found
      makes the read throw once the header is consumed; with reuse on, the object's
      slot is already reserved. */
  lemma ReadExpectedTypeLookupFails(
    v: Variant, sel: SerializerSelector, externals: Option<map<Guid, Obj>>, hasCallback: bool,
    declared: DeclaredType, dataSerializer: Option<Codec>, objIn: Option<Obj>,
    refs: seq<Option<Obj>>, rest: seq<Token>)
    requires !TakesValueTypeBranch(v, declared) && v.tier != NullableTier
    requires ExpectedCodec(LooksUpLazily(v), sel, declared, dataSerializer).Err?
    ensures var header := FrameTokens(ObjectFrame(if ReuseOn(v, sel) then Some(|refs|) else None, None));
      ReadSpec(v, sel, externals, hasCallback, declared, dataSerializer, objIn, header + rest, refs)
      == ReadEffect(|header|, if ReuseOn(v, sel) then refs + [None] else refs, [],
                    Err(ExpectedCodec(LooksUpLazily(v), sel, declared, dataSerializer).error))
  {
    var header := FrameTokens(ObjectFrame(if ReuseOn(v, sel) then Some(|refs|) else None, None));
    var input := header + rest;
    assert input[0] == header[0];
    assert ReuseOn(v, sel) ==> input[1] == Int32Value(|refs|);
  }

  /** The errors a codec lookup or the token stream can raise, each with its cause. */
  predicate CodecErrorExplained(
    v: Variant, sel: SerializerSelector, declared: DeclaredType, dataSerializer: Option<Codec>, err: SerializationError)
  {
    match err
    case DataSerializerMissing => !LooksUpLazily(v) && dataSerializer.None?
    case NoSerializerForType(t) => t == declared.name && declared.name !in sel.byType
    case NoSerializerForTypeId(id, baseType) => id !in sel.byId && baseType == declared.name
    case EndOfStream => true
    case UnexpectedToken => true
    case _ => false
  }

  /** Every error a read can raise, with its cause; `count` is the read table's size
      when the read starts. */
  predicate ReadErrorExplained(
    v: Variant, sel: SerializerSelector, externals: Option<map<Guid, Obj>>,
    declared: DeclaredType, dataSerializer: Option<Codec>, count: int, err: SerializationError)
  {
    match err
    case IndicesOutOfSync(c, index) => ReuseOn(v, sel) && c == count && c != index
    case ReferenceIndexOutOfRange(index) => ReuseOn(v, sel) && !(0 <= index < count)
    case ExternalTableMissing => ExternalOn(v, sel) && externals.None?
    case _ => CodecErrorExplained(v, sel, declared, dataSerializer, err)
  }

  /** Decoding a payload fails only on the stream; with reuse it touches no slot but
      `index`, and without reuse no slot at all. */
  lemma DecodePayloadBounds(
    c: Codec, input: seq<Token>, reuse: bool, hasCallback: bool,
    index: int, objIn: Option<Obj>, refs: seq<Option<Obj>>)
    requires reuse ==> 0 <= index < |refs|
    ensures var e := DecodePayload(c, input, reuse, hasCallback, index, objIn, refs);
      && (e.result.Err? ==> e.result.error == EndOfStream || e.result.error == UnexpectedToken)
      && |e.refs| == |refs|
      && (forall k :: 0 <= k < |refs| && k != index ==> e.refs[k] == refs[k])
      && (!reuse ==> e.refs == refs)
  {
  }

  /** A first-seen object's read raises only codec and stream errors and touches no
      slot but `index`. */
  lemma ReadFirstSeenBounds(
    v: Variant, sel: SerializerSelector, hasCallback: bool,
    declared: DeclaredType, dataSerializer: Option<Codec>, objIn: Option<Obj>,
    input: seq<Token>, refs: seq<Option<Obj>>, flags: Flags, index: int)
    requires ReuseOn(v, sel) ==> 0 <= index < |refs|
    ensures var e := ReadFirstSeen(v, sel, hasCallback, declared, dataSerializer, objIn, input, refs, flags, index);
      && (e.result.Err? ==> CodecErrorExplained(v, sel, declared, dataSerializer, e.result.error))
      && |e.refs| == |refs|
      && (forall k :: 0 <= k < |refs| && k != index ==> e.refs[k] == refs[k])
      && (!ReuseOn(v, sel) ==> e.refs == refs)
  {
    if flags.isTypeInfo {
      match TypeIdAt(input, 0)
      case Err(_) =>
      case Ok(typeId) =>
        if typeId in sel.byId {
          DecodePayloadBounds(sel.byId[typeId], input[1..], ReuseOn(v, sel), hasCallback, index, objIn, refs);
        }
    } else {
      match ExpectedCodec(LooksUpLazily(v), sel, declared, dataSerializer)
      case Err(_) =>
      case Ok(c) =>
        DecodePayloadBounds(c, input, ReuseOn(v, sel), hasCallback, index, objIn, refs);
    }
  }

  /** After the header, a read keeps the slots already there and adds at most one
      (only with reuse), and each error it raises is explained. */
  lemma ReadReferenceBounds(
    v: Variant, sel: SerializerSelector, externals: Option<map<Guid, Obj>>, hasCallback: bool,
    declared: DeclaredType, dataSerializer: Option<Codec>, objIn: Option<Obj>,
    input: seq<Token>, refs: seq<Option<Obj>>, flags: Flags, index: int)
    ensures var e := ReadReference(v, sel, externals, hasCallback, declared, dataSerializer, objIn, input, refs, flags, index);
      && (e.result.Err? ==> ReadErrorExplained(v, sel, externals, declared, dataSerializer, |refs|, e.result.error))
      && (e.refs == refs || (ReuseOn(v, sel) && |e.refs| == |refs| + 1 && e.refs[..|refs|] == refs))
  {
    var e := ReadReference(v, sel, externals, hasCallback, declared, dataSerializer, objIn, input, refs, flags, index);
    if !flags.isNull && !(ExternalOn(v, sel) && flags.isExternalIdentifiable)
       && !(ReuseOn(v, sel) && flags.isReference) && !(ReuseOn(v, sel) && |refs| != index) {
      var reserved := if ReuseOn(v, sel) then refs + [None] else refs;
      ReadFirstSeenBounds(v, sel, hasCallback, declared, dataSerializer, objIn, input, reserved, flags, index);
      if ReuseOn(v, sel) {
        assert e.refs[..|refs|] == refs by {
          forall k | 0 <= k < |refs| ensures e.refs[k] == refs[k] {
            assert reserved[k] == refs[k];
          }
        }
      }
    }
  }

  /** Every error a read raises says what was wrong: a type or type id with no codec,
      an index that does not match the table, an external table that is absent, an
      instance member serializer without a codec, or a stream that does not hold what
      was asked for. And the read table is append-only: a read keeps the slots already
      there and adds at most one, only with reuse. */
  lemma ReadErrorsAndTable(
    v: Variant, sel: SerializerSelector, externals: Option<map<Guid, Obj>>, hasCallback: bool,
    declared: DeclaredType, dataSerializer: Option<Codec>, objIn: Option<Obj>,
    input: seq<Token>, refs: seq<Option<Obj>>)
    ensures var e := ReadSpec(v, sel, externals, hasCallback, declared, dataSerializer, objIn, input, refs);
      && (e.result.Err? ==> ReadErrorExplained(v, sel, externals, declared, dataSerializer, |refs|, e.result.error))
      && (e.refs == refs || (ReuseOn(v, sel) && |e.refs| == |refs| + 1 && e.refs[..|refs|] == refs))
  {
    var e := ReadSpec(v, sel, externals, hasCallback, declared, dataSerializer, objIn, input, refs);
    if !TakesValueTypeBranch(v, declared) && FlagsAt(input, 0).Ok? {
      var flags := FlagsAt(input, 0).value;
      if v.tier == NullableTier {
        if !flags.isNull {
          match ExpectedCodec(LooksUpLazily(v), sel, declared, dataSerializer)
          case Err(_) =>
          case Ok(c) =>
            assert e == After(1, DecodePayload(c, input[1..], false, hasCallback, -1, objIn, refs));
            DecodePayloadBounds(c, input[1..], false, hasCallback, -1, objIn, refs);
        }
      } else if ReuseOn(v, sel) && !flags.isNull && !flags.isExternalIdentifiable {
        if Int32At(input, 1).Ok? {
          var index := Int32At(input, 1).value;
          assert e == After(2, ReadReference(v, sel, externals, hasCallback, declared, dataSerializer, objIn,
                                             input[2..], refs, flags, index));
          ReadReferenceBounds(v, sel, externals, hasCallback, declared, dataSerializer, objIn, input[2..], refs,
                              flags, index);
        }
      } else {
        assert e == After(1, ReadReference(v, sel, externals, hasCallback, declared, dataSerializer, objIn,
                                           input[1..], refs, flags, -1));
        ReadReferenceBounds(v, sel, externals, hasCallback, declared, dataSerializer, objIn, input[1..], refs, flags, -1);
      }
    }
  }

  /** With reuse on, IsReference yields the object in the slot the index names (or
      throws when there is no such slot): two tokens, no codec, no table change. */
  lemma ReadBackReference(
    v: Variant, sel: SerializerSelector, externals: Option<map<Guid, Obj>>, hasCallback: bool,
    declared: DeclaredType, dataSerializer: Option<Codec>, objIn: Option<Obj>,
    input: seq<Token>, refs: seq<Option<Obj>>, f: Flags, index: int)
    requires !TakesValueTypeBranch(v, declared) && ReuseOn(v, sel)
    requires |input| >= 2 && input[0] == FlagsByte(f) && input[1] == Int32Value(index)
    requires f.isReference && !f.isNull && !f.isExternalIdentifiable
    ensures ReadSpec(v, sel, externals, hasCallback, declared, dataSerializer, objIn, input, refs)
            == ReadEffect(2, refs, [],
                          if 0 <= index < |refs| then Ok(refs[index]) else Err(ReferenceIndexOutOfRange(index)))
  {
  }

  /** With the external mode on, IsExternalIdentifiable is followed by a Guid and no
      index; it yields the external table's object, or null when the Guid is not a
      key (no error); no codec, no table change. */
  lemma ReadExternal(
    v: Variant, sel: SerializerSelector, externals: Option<map<Guid, Obj>>, hasCallback: bool,
    declared: DeclaredType, dataSerializer: Option<Codec>, objIn: Option<Obj>,
    input: seq<Token>, refs: seq<Option<Obj>>, f: Flags, id: Guid)
    requires !TakesValueTypeBranch(v, declared) && ExternalOn(v, sel)
    requires |input| >= 2 && input[0] == FlagsByte(f) && input[1] == GuidValue(id)
    requires f.isExternalIdentifiable && !f.isNull
    ensures ReadSpec(v, sel, externals, hasCallback, declared, dataSerializer, objIn, input, refs)
            == ReadEffect(2, refs, [],
                          if externals.None? then Err(ExternalTableMissing)
                          else Ok(if id in externals.value then Some(externals.value[id]) else None))
  {
  }

  /** The events of decoding a first-seen object with reuse on: PreSerialize, the
      slot gets the object PreSerialize left, Serialize, the slot gets the decoded
      object, then the callback (when there is one) with that slot and object. */
  function FirstSeenEvents(c: Codec, index: int, objIn: Option<Obj>, value: Option<Obj>, hasCallback: bool)
    : (events: seq<Event>)
    ensures |events| == (if hasCallback then 5 else 4)
  {
    [CodecCall(PreSerializeCall, c), SlotAssigned(index, objIn), CodecCall(SerializeCall, c), SlotAssigned(index, value)]
    + (if hasCallback then [CallbackInvoked(index, value)] else [])
  }

  /** With reuse on, a first-seen object's index must equal the table's size, else
      the read throws "out of sync" with the table untouched. When it does, the table
      grows by exactly one slot, whatever happens next; and when the object is read,
      that slot holds it and the events come in the order of FirstSeenEvents. */
  lemma ReadFirstSeenReuse(
    v: Variant, sel: SerializerSelector, externals: Option<map<Guid, Obj>>, hasCallback: bool,
    declared: DeclaredType, dataSerializer: Option<Codec>, objIn: Option<Obj>,
    input: seq<Token>, refs: seq<Option<Obj>>, f: Flags, index: int)
    requires !TakesValueTypeBranch(v, declared) && ReuseOn(v, sel)
    requires |input| >= 2 && input[0] == FlagsByte(f) && input[1] == Int32Value(index)
    requires !f.isReference && !f.isNull && !f.isExternalIdentifiable
    ensures var e := ReadSpec(v, sel, externals, hasCallback, declared, dataSerializer, objIn, input, refs);
      && (index != |refs| ==> e == ReadEffect(2, refs, [], Err(IndicesOutOfSync(|refs|, index))))
      && (index == |refs| ==> |e.refs| == index + 1 && e.refs[..index] == refs)
      && (index == |refs| && e.result.Ok? ==>
            && e.refs[index] == e.result.value
            && e.consumed == (if f.isTypeInfo then 4 else 3)
            && |e.events| >= 1 && e.events[0].CodecCall?
            && e.events == FirstSeenEvents(e.events[0].codec, index, objIn, e.result.value, hasCallback))
  {
    var e := ReadSpec(v, sel, externals, hasCallback, declared, dataSerializer, objIn, input, refs);
    if index == |refs| {
      var e2 := ReadFirstSeen(v, sel, hasCallback, declared, dataSerializer, objIn, input[2..], refs + [None], f, index);
      assert e == After(2, e2);
      assert e.refs[..index] == refs by {
        assert (refs + [None])[..index] == refs;
      }
    }
  }
}
