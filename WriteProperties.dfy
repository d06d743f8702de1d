/**
  What a single write promises: the header it emits in each case, which codec
  calls it makes, how it changes the write table, and when it throws.
*/
module WriteProperties {
  import opened Wrappers
  import opened Types
  import opened Wire
  import opened Registry
  import opened Framing

  /** The write table maps each object it holds to a distinct index below its size,
      so its indices are exactly 0 .. |w|-1. */
  ghost predicate WriteTableValid(w: map<Obj, int>)
  {
    && (forall o :: o in w ==> 0 <= w[o] < |w|)
    && (forall o1, o2 :: o1 in w && o2 in w && w[o1] == w[o2] ==> o1 == o2)
  }

  /** The writer decides to write type info for `o`. */
  predicate HasTypeInfo(sel: SerializerSelector, declared: DeclaredType, o: Obj)
  {
    var decision := TypeInfoDecision(sel, declared, o.runtimeType);
    decision.Ok? && decision.value.Some?
  }

  /** A null reference is one flags byte, IsNull, and nothing else: no codec call,
      no change to the table. */
  lemma WriteNull(
    v: Variant, sel: SerializerSelector, externals: Option<map<Guid, Obj>>,
    declared: DeclaredType, dataSerializer: Option<Codec>, refs: map<Obj, int>)
    requires !TakesValueTypeBranch(v, declared)
    ensures WriteSpec(v, sel, externals, declared, dataSerializer, None, refs)
            == WriteEffect([FlagsByte(NullFlags)], refs, [], Success)
  {
  }

  /** A value type gets no framing at all: at most one token, a payload; only the
      codec's Serialize runs (no PreSerialize); the table does not change; and a
      null value too goes to the codec. */
  lemma WriteValueType(
    v: Variant, sel: SerializerSelector, externals: Option<map<Guid, Obj>>,
    declared: DeclaredType, dataSerializer: Option<Codec>, obj: Option<Obj>, refs: map<Obj, int>)
    requires TakesValueTypeBranch(v, declared)
    ensures var e := WriteSpec(v, sel, externals, declared, dataSerializer, obj, refs);
      && e.refs == refs
      && |e.emitted| <= 1
      && (forall t :: t in e.emitted ==> t.Payload? && t.content == obj)
      && (forall ev :: ev in e.events ==> ev.CodecCall? && ev.phase == SerializeCall)
      && (e.status.Success? <==> |e.emitted| == 1)
  {
  }

  /** The only ways a write may throw: "no serializer available" for a type that has
      no codec, or an instance member serializer built without a DataSerializer. */
  predicate ThrowsOnlyOnLookup(v: Variant, sel: SerializerSelector, dataSerializer: Option<Codec>, s: Status)
  {
    && (s.Failure? ==> s.error.NoSerializerForType? || s.error == DataSerializerMissing)
    && (s.Failure? && s.error.NoSerializerForType? ==> s.error.typeName !in sel.byType)
    && (s == Failure(DataSerializerMissing) ==> !LooksUpLazily(v) && dataSerializer.None?)
  }

  /** A failed lookup of the declared type's codec is one of those. */
  lemma ExpectedCodecFailure(v: Variant, sel: SerializerSelector, declared: DeclaredType, dataSerializer: Option<Codec>)
    requires ExpectedCodec(LooksUpLazily(v), sel, declared, dataSerializer).Err?
    ensures ThrowsOnlyOnLookup(v, sel, dataSerializer,
                               Failure(ExpectedCodec(LooksUpLazily(v), sel, declared, dataSerializer).error))
  {
  }

  /** A first-seen object's write throws only on a failed lookup. */
  lemma FirstSeenFailures(
    v: Variant, sel: SerializerSelector, declared: DeclaredType, dataSerializer: Option<Codec>,
    o: Obj, index: Option<int>, refs: map<Obj, int>)
    ensures ThrowsOnlyOnLookup(v, sel, dataSerializer, WriteFirstSeen(v, sel, declared, dataSerializer, o, index, refs).status)
  {
    var decision := TypeInfoDecision(sel, declared, o.runtimeType);
    if decision.Ok? && decision.value.None? && ExpectedCodec(LooksUpLazily(v), sel, declared, dataSerializer).Err? {
      ExpectedCodecFailure(v, sel, declared, dataSerializer);
    }
  }

  /** A write throws only "no serializer available" for a type that has no codec, or
      because an instance member serializer was built without one. */
  lemma WriteFailures(
    v: Variant, sel: SerializerSelector, externals: Option<map<Guid, Obj>>,
    declared: DeclaredType, dataSerializer: Option<Codec>, obj: Option<Obj>, refs: map<Obj, int>)
    ensures var e := WriteSpec(v, sel, externals, declared, dataSerializer, obj, refs);
      && (e.status.Failure? ==> e.status.error.NoSerializerForType? || e.status.error == DataSerializerMissing)
      && (e.status.Failure? && e.status.error.NoSerializerForType? ==> e.status.error.typeName !in sel.byType)
      && (e.status == Failure(DataSerializerMissing) ==> !LooksUpLazily(v) && dataSerializer.None?)
  {
    var e := WriteSpec(v, sel, externals, declared, dataSerializer, obj, refs);
    if (TakesValueTypeBranch(v, declared) || (obj.Some? && v.tier == NullableTier))
       && ExpectedCodec(LooksUpLazily(v), sel, declared, dataSerializer).Err? {
      ExpectedCodecFailure(v, sel, declared, dataSerializer);
    } else if !TakesValueTypeBranch(v, declared) && obj.Some? && v.tier != NullableTier {
      var o := obj.value;
      if !(ExternalOn(v, sel) && IsExternal(externals, o)) && !(ReuseOn(v, sel) && o in refs) {
        var index := if ReuseOn(v, sel) then Some(|refs|) else None;
        var registered := if ReuseOn(v, sel) then refs[o := |refs|] else refs;
        FirstSeenFailures(v, sel, declared, dataSerializer, o, index, registered);
      }
    }
    assert ThrowsOnlyOnLookup(v, sel, dataSerializer, e.status);
  }

  /** Conversely, a failed codec lookup for a value type makes the write throw before
      anything is written. */
  lemma WriteValueTypeLookupFails(
    v: Variant, sel: SerializerSelector, externals: Option<map<Guid, Obj>>,
    declared: DeclaredType, dataSerializer: Option<Codec>, obj: Option<Obj>, refs: map<Obj, int>)
    requires TakesValueTypeBranch(v, declared)
    requires ExpectedCodec(LooksUpLazily(v), sel, declared, dataSerializer).Err?
    ensures WriteSpec(v, sel, externals, declared, dataSerializer, obj, refs)
            == WriteEffect([], refs, [], Failure(ExpectedCodec(LooksUpLazily(v), sel, declared, dataSerializer).error))
  {
  }

  /** In the nullable tier a failed lookup of the declared type's codec makes the write
      of a non-null object throw after its flags byte. */
  lemma WriteNullableLookupFails(
    v: Variant, sel: SerializerSelector, externals: Option<map<Guid, Obj>>,
    declared: DeclaredType, dataSerializer: Option<Codec>, o: Obj, refs: map<Obj, int>)
    requires !TakesValueTypeBranch(v, declared) && v.tier == NullableTier
    requires ExpectedCodec(LooksUpLazily(v), sel, declared, dataSerializer).Err?
    ensures WriteSpec(v, sel, externals, declared, dataSerializer, Some(o), refs)
            == WriteEffect([FlagsByte(NoFlags)], refs, [],
                           Failure(ExpectedCodec(LooksUpLazily(v), sel, declared, dataSerializer).error))
  {
  }

  /** A first-seen object whose runtime type differs from a non-sealed declared type and
      has no codec makes the write throw "no serializer" for that runtime type, before
      anything is written. */
  lemma WriteRuntimeTypeLookupFails(
    v: Variant, sel: SerializerSelector, externals: Option<map<Guid, Obj>>,
    declared: DeclaredType, dataSerializer: Option<Codec>, o: Obj, refs: map<Obj, int>)
    requires !TakesValueTypeBranch(v, declared) && v.tier != NullableTier
    requires !(ExternalOn(v, sel) && IsExternal(externals, o))
    requires !(ReuseOn(v, sel) && o in refs)
    requires !declared.isSealed && o.runtimeType != declared.name && o.runtimeType !in sel.byType
    ensures var e := WriteSpec(v, sel, externals, declared, dataSerializer, Some(o), refs);
      e.emitted == [] && e.status == Failure(NoSerializerForType(o.runtimeType))
  {
    var e := WriteSpec(v, sel, externals, declared, dataSerializer, Some(o), refs);
    var index := if ReuseOn(v, sel) then Some(|refs|) else None;
    var registered := if ReuseOn(v, sel) then refs[o := |refs|] else refs;
    assert e == WriteFirstSeen(v, sel, declared, dataSerializer, o, index, registered);
  }

  /** A first-seen object without type info whose declared type's codec cannot be found
      makes the write throw after its flags byte and index. */
  lemma WriteExpectedTypeLookupFails(
    v: Variant, sel: SerializerSelector, externals: Option<map<Guid, Obj>>,
    declared: DeclaredType, dataSerializer: Option<Codec>, o: Obj, refs: map<Obj, int>)
    requires !TakesValueTypeBranch(v, declared) && v.tier != NullableTier
    requires !(ExternalOn(v, sel) && IsExternal(externals, o))
    requires !(ReuseOn(v, sel) && o in refs)
    requires TypeInfoDecision(sel, declared, o.runtimeType) == Ok(None)
    requires ExpectedCodec(LooksUpLazily(v), sel, declared, dataSerializer).Err?
    ensures var e := WriteSpec(v, sel, externals, declared, dataSerializer, Some(o), refs);
      && e.emitted == FrameTokens(ObjectFrame(if ReuseOn(v, sel) then Some(|refs|) else None, None))
      && e.status == Failure(ExpectedCodec(LooksUpLazily(v), sel, declared, dataSerializer).error)
  {
    var e := WriteSpec(v, sel, externals, declared, dataSerializer, Some(o), refs);
    var index := if ReuseOn(v, sel) then Some(|refs|) else None;
    var registered := if ReuseOn(v, sel) then refs[o := |refs|] else refs;
    assert e == WriteFirstSeen(v, sel, declared, dataSerializer, o, index, registered);
  }

  /** External-identifiable substitution comes first: a known IIdentifiable object
      becomes its flag and its Guid, whether or not it was written before; no index,
      no type info, no codec call, no change to the table. */
  lemma WriteExternal(
    v: Variant, sel: SerializerSelector, externals: Option<map<Guid, Obj>>,
    declared: DeclaredType, dataSerializer: Option<Codec>, o: Obj, refs: map<Obj, int>)
    requires !TakesValueTypeBranch(v, declared)
    requires ExternalOn(v, sel) && IsExternal(externals, o)
    ensures WriteSpec(v, sel, externals, declared, dataSerializer, Some(o), refs)
            == WriteEffect([FlagsByte(NoFlags.(isExternalIdentifiable := true)), GuidValue(o.identifiable.value)],
                           refs, [], Success)
  {
  }

  /** With reuse on, an object already in the table is its IsReference flag and its
      stored index, and nothing else; the table does not change. */
  lemma WriteBackReference(
    v: Variant, sel: SerializerSelector, externals: Option<map<Guid, Obj>>,
    declared: DeclaredType, dataSerializer: Option<Codec>, o: Obj, refs: map<Obj, int>)
    requires !TakesValueTypeBranch(v, declared)
    requires ReuseOn(v, sel) && o in refs
    requires !(ExternalOn(v, sel) && IsExternal(externals, o))
    ensures WriteSpec(v, sel, externals, declared, dataSerializer, Some(o), refs)
            == WriteEffect([FlagsByte(NoFlags.(isReference := true)), Int32Value(refs[o])], refs, [], Success)
  {
  }

  /** A first-seen object is registered under the old table size before its type is
      resolved, so the entry is there even when the write then throws; without reuse
      the table is not touched. */
  lemma WriteFirstSeenRegisters(
    v: Variant, sel: SerializerSelector, externals: Option<map<Guid, Obj>>,
    declared: DeclaredType, dataSerializer: Option<Codec>, o: Obj, refs: map<Obj, int>)
    requires !TakesValueTypeBranch(v, declared) && v.tier != NullableTier
    requires !(ExternalOn(v, sel) && IsExternal(externals, o))
    requires !(ReuseOn(v, sel) && o in refs)
    ensures var e := WriteSpec(v, sel, externals, declared, dataSerializer, Some(o), refs);
      e.refs == if ReuseOn(v, sel) then refs[o := |refs|] else refs
  {
  }

  /** The layout of a first-seen object that is written: the flags byte, the index
      when reuse is on, the type id when the type-info decision says so, then the
      payload of the codec that decision picked (else the expected codec); the
      IsTypeInfo bit is set exactly when the type id is written; PreSerialize then
      Serialize run on that codec. */
  lemma WriteFirstSeenLayout(
    v: Variant, sel: SerializerSelector, externals: Option<map<Guid, Obj>>,
    declared: DeclaredType, dataSerializer: Option<Codec>, o: Obj, refs: map<Obj, int>)
    requires !TakesValueTypeBranch(v, declared) && v.tier != NullableTier
    requires !(ExternalOn(v, sel) && IsExternal(externals, o))
    requires !(ReuseOn(v, sel) && o in refs)
    ensures var e := WriteSpec(v, sel, externals, declared, dataSerializer, Some(o), refs);
      e.status.Success? ==>
        && |e.emitted| >= 2 && e.emitted[|e.emitted| - 1].Payload?
        && var c := e.emitted[|e.emitted| - 1].codec;
        && var index := if ReuseOn(v, sel) then Some(|refs|) else None;
        && var typeId := if HasTypeInfo(sel, declared, o) then Some(c.serializationTypeId) else None;
        && e.emitted == FrameTokens(ObjectFrame(index, typeId)) + [Payload(c, Some(o))]
        && e.emitted[0].flags.isTypeInfo == HasTypeInfo(sel, declared, o)
        && !e.emitted[0].flags.isNull && !e.emitted[0].flags.isReference && !e.emitted[0].flags.isExternalIdentifiable
        && (HasTypeInfo(sel, declared, o) ==> c == sel.byType[o.runtimeType])
        && (!HasTypeInfo(sel, declared, o) ==> Ok(c) == ExpectedCodec(LooksUpLazily(v), sel, declared, dataSerializer))
        && e.events == BothCalls(c)
  {
    var e := WriteSpec(v, sel, externals, declared, dataSerializer, Some(o), refs);
    var index := if ReuseOn(v, sel) then Some(|refs|) else None;
    var registered := if ReuseOn(v, sel) then refs[o := |refs|] else refs;
    assert e == WriteFirstSeen(v, sel, declared, dataSerializer, o, index, registered);
  }

  /** Adding a fresh object under the table's size keeps the table valid and grows it by one. */
  lemma RegisterFresh(w: map<Obj, int>, o: Obj)
    requires WriteTableValid(w) && o !in w
    ensures |w[o := |w|]| == |w| + 1
    ensures WriteTableValid(w[o := |w|])
  {
    var grown := w[o := |w|];
    assert grown.Keys == w.Keys + {o};
    assert |grown| == |w| + 1;
    forall x | x in grown ensures 0 <= grown[x] < |grown| {
    }
    forall x1, x2 | x1 in grown && x2 in grown && grown[x1] == grown[x2] ensures x1 == x2 {
    }
  }

  /** The write of `o` through a member serializer of variant `v` registers it in the
      write table when it is not there yet: reuse is on, the member is not a value type,
      and the object is not replaced by its Guid. */
  predicate Registers(
    v: Variant, sel: SerializerSelector, externals: Option<map<Guid, Obj>>, declared: DeclaredType, o: Obj)
  {
    ReuseOn(v, sel) && !TakesValueTypeBranch(v, declared) && !(ExternalOn(v, sel) && IsExternal(externals, o))
  }

  /** The write table after a write: the written object added under the old size when
      it registers and is new, the same table otherwise. */
  lemma WriteRegisters(
    v: Variant, sel: SerializerSelector, externals: Option<map<Guid, Obj>>,
    declared: DeclaredType, dataSerializer: Option<Codec>, obj: Option<Obj>, refs: map<Obj, int>)
    ensures WriteSpec(v, sel, externals, declared, dataSerializer, obj, refs).refs
            == (if obj.Some? && Registers(v, sel, externals, declared, obj.value) && obj.value !in refs
                then refs[obj.value := |refs|] else refs)
  {
    if !TakesValueTypeBranch(v, declared) && obj.Some? && v.tier != NullableTier {
      var o := obj.value;
      if !(ExternalOn(v, sel) && IsExternal(externals, o)) && !(ReuseOn(v, sel) && o in refs) {
        WriteFirstSeenRegisters(v, sel, externals, declared, dataSerializer, o, refs);
      }
    }
  }

  /** Every write keeps the write table valid; it adds exactly the written object, under
      the old size, when the object registers and is new, and changes nothing otherwise. */
  lemma WriteKeepsTableValid(
    v: Variant, sel: SerializerSelector, externals: Option<map<Guid, Obj>>,
    declared: DeclaredType, dataSerializer: Option<Codec>, obj: Option<Obj>, refs: map<Obj, int>)
    requires WriteTableValid(refs)
    ensures var e := WriteSpec(v, sel, externals, declared, dataSerializer, obj, refs);
      && WriteTableValid(e.refs)
      && (forall o :: o in refs ==> o in e.refs && e.refs[o] == refs[o])
      && e.refs == (if obj.Some? && Registers(v, sel, externals, declared, obj.value) && obj.value !in refs
                    then refs[obj.value := |refs|] else refs)
  {
    WriteRegisters(v, sel, externals, declared, dataSerializer, obj, refs);
    if obj.Some? && Registers(v, sel, externals, declared, obj.value) && obj.value !in refs {
      RegisterFresh(refs, obj.value);
    }
  }
}
