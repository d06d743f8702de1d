/**
  The writer and the reader mirror each other: reading back what a write emitted,
  with tables that were in step before, yields the value written, consumes exactly
  the tokens written and leaves the two tables in step again.
*/
module RoundTrip {
  import opened Wrappers
  import opened Types
  import opened Wire
  import opened Registry
  import opened Framing

  /** The two sessions' tables are in step: the same size, and the reader's slot for
      each index the writer handed out holds that very object. */
  ghost predicate Corresponds(w: map<Obj, int>, r: seq<Option<Obj>>)
  {
    && |w| == |r|
    && (forall o :: o in w ==> 0 <= w[o] < |r| && r[w[o]] == Some(o))
  }

  /** The reader's external table gives back, for an object the writer replaced by
      its Guid, that same object. */
  predicate ExternalResolves(externals: Option<map<Guid, Obj>>, o: Obj)
  {
    IsExternal(externals, o) ==> externals.value[o.identifiable.value] == o
  }

  /** Registering a first-seen object on both sides keeps the tables in step. */
  lemma CorrespondsAfterRegister(w: map<Obj, int>, r: seq<Option<Obj>>, o: Obj)
    requires Corresponds(w, r) && o !in w
    ensures Corresponds(w[o := |w|], r + [Some(o)])
  {
    assert w[o := |w|].Keys == w.Keys + {o};
  }

  /** The payload, after PreSerialize and the slot bookkeeping, reads back the object. */
  lemma DecodePayloadRoundTrip(
    c: Codec, reuse: bool, hasCallback: bool, index: int, objIn: Option<Obj>,
    refs: seq<Option<Obj>>, obj: Option<Obj>, rest: seq<Token>)
    requires reuse ==> 0 <= index < |refs|
    ensures var e := DecodePayload(c, [Payload(c, obj)] + rest, reuse, hasCallback, index, objIn, refs);
      && e.result == Ok(obj) && e.consumed == 1
      && e.refs == if reuse then refs[index := obj] else refs
  {
  }

  /** A first-seen object's body: the type id (when written) names the codec the
      writer used, so the reader decodes the payload with that codec. */
  lemma FirstSeenRoundTrip(
    v: Variant, sel: SerializerSelector, hasCallback: bool,
    declared: DeclaredType, dataSerializer: Option<Codec>, objIn: Option<Obj>,
    c: Codec, typeId: Option<ObjectId>, o: Obj, rest: seq<Token>,
    refs: seq<Option<Obj>>, flags: Flags, index: int)
    requires ReuseOn(v, sel) ==> 0 <= index < |refs|
    requires flags.isTypeInfo <==> typeId.Some?
    requires typeId.Some? ==> typeId.value in sel.byId && sel.byId[typeId.value] == c
    requires typeId.None? ==> ExpectedCodec(LooksUpLazily(v), sel, declared, dataSerializer) == Ok(c)
    ensures var input := (if typeId.Some? then [TypeIdBytes(typeId.value)] else []) + [Payload(c, Some(o))] + rest;
      var e := ReadFirstSeen(v, sel, hasCallback, declared, dataSerializer, objIn, input, refs, flags, index);
      && e.result == Ok(Some(o))
      && e.consumed == (if typeId.Some? then 2 else 1)
      && e.refs == if ReuseOn(v, sel) then refs[index := Some(o)] else refs
  {
    var input := (if typeId.Some? then [TypeIdBytes(typeId.value)] else []) + [Payload(c, Some(o))] + rest;
    if typeId.Some? {
      assert input[0] == TypeIdBytes(typeId.value);
      assert input[1..] == [Payload(c, Some(o))] + rest;
      DecodePayloadRoundTrip(c, ReuseOn(v, sel), hasCallback, index, objIn, refs, Some(o), rest);
    } else {
      assert input == [Payload(c, Some(o))] + rest;
      DecodePayloadRoundTrip(c, ReuseOn(v, sel), hasCallback, index, objIn, refs, Some(o), rest);
    }
  }

  /** The codec a first-seen object is written with, and the type id written before it. */
  function WrittenCodec(
    v: Variant, sel: SerializerSelector, declared: DeclaredType, dataSerializer: Option<Codec>, o: Obj)
    : (r: Result<(Codec, Option<ObjectId>), SerializationError>)
    ensures r.Ok? && r.value.1.Some? ==> r.value.1.value == r.value.0.serializationTypeId
  {
    match TypeInfoDecision(sel, declared, o.runtimeType)
    case Err(e) => Err(e)
    case Ok(Some(c)) => Ok((c, Some(c.serializationTypeId)))
    case Ok(None) =>
      match ExpectedCodec(LooksUpLazily(v), sel, declared, dataSerializer)
      case Err(e) => Err(e)
      case Ok(c) => Ok((c, None))
  }

  /** What WriteFirstSeen emits, in terms of WrittenCodec. */
  lemma WriteFirstSeenShape(
    v: Variant, sel: SerializerSelector, declared: DeclaredType, dataSerializer: Option<Codec>,
    o: Obj, index: Option<int>, refs: map<Obj, int>)
    ensures var e := WriteFirstSeen(v, sel, declared, dataSerializer, o, index, refs);
      var wc := WrittenCodec(v, sel, declared, dataSerializer, o);
      && e.refs == refs
      && (e.status.Success? <==> wc.Ok?)
      && (wc.Ok? ==> e.emitted == FrameTokens(ObjectFrame(index, wc.value.1)) + [Payload(wc.value.0, Some(o))])
  {
  }

  /** A consistent selector finds again, by the type id written, the codec chosen by
      runtime type. */
  lemma WrittenCodecFoundById(
    v: Variant, sel: SerializerSelector, declared: DeclaredType, dataSerializer: Option<Codec>, o: Obj)
    requires SelectorConsistent(sel)
    requires WrittenCodec(v, sel, declared, dataSerializer, o).Ok?
    ensures var (c, typeId) := WrittenCodec(v, sel, declared, dataSerializer, o).value;
      && (typeId.Some? ==> typeId.value in sel.byId && sel.byId[typeId.value] == c)
      && (typeId.None? ==> ExpectedCodec(LooksUpLazily(v), sel, declared, dataSerializer) == Ok(c))
  {
  }

  /** An external object reads back, through its Guid, as the object itself. */
  lemma ExternalRoundTrip(
    v: Variant, sel: SerializerSelector, externals: Option<map<Guid, Obj>>, hasCallback: bool,
    declared: DeclaredType, dataSerializer: Option<Codec>, objIn: Option<Obj>,
    o: Obj, r: seq<Option<Obj>>, rest: seq<Token>)
    requires ExternalResolves(externals, o)
    requires !TakesValueTypeBranch(v, declared) && ExternalOn(v, sel) && IsExternal(externals, o)
    ensures var input := [FlagsByte(NoFlags.(isExternalIdentifiable := true)), GuidValue(o.identifiable.value)] + rest;
      ReadSpec(v, sel, externals, hasCallback, declared, dataSerializer, objIn, input, r)
      == ReadEffect(2, r, [], Ok(Some(o)))
  {
    var input := [FlagsByte(NoFlags.(isExternalIdentifiable := true)), GuidValue(o.identifiable.value)] + rest;
    assert input[1..][0] == GuidValue(o.identifiable.value);
  }

  /** A back-reference reads back, through the reader's slot, as the object itself. */
  lemma BackReferenceRoundTrip(
    v: Variant, sel: SerializerSelector, externals: Option<map<Guid, Obj>>, hasCallback: bool,
    declared: DeclaredType, dataSerializer: Option<Codec>, objIn: Option<Obj>,
    o: Obj, w: map<Obj, int>, r: seq<Option<Obj>>, rest: seq<Token>)
    requires Corresponds(w, r)
    requires !TakesValueTypeBranch(v, declared) && ReuseOn(v, sel) && o in w
    ensures var input := [FlagsByte(NoFlags.(isReference := true)), Int32Value(w[o])] + rest;
      ReadSpec(v, sel, externals, hasCallback, declared, dataSerializer, objIn, input, r)
      == ReadEffect(2, r, [], Ok(Some(o)))
  {
    var input := [FlagsByte(NoFlags.(isReference := true)), Int32Value(w[o])] + rest;
    assert input[0] == FlagsByte(NoFlags.(isReference := true));
    assert input[1] == Int32Value(w[o]);
  }

  /** A first-seen object with reuse on: the index read is the reader's table size,
      the slot reserved for it ends up holding the object. */
  lemma FirstSeenReuseRoundTrip(
    v: Variant, sel: SerializerSelector, externals: Option<map<Guid, Obj>>, hasCallback: bool,
    declared: DeclaredType, dataSerializer: Option<Codec>, objIn: Option<Obj>,
    c: Codec, typeId: Option<ObjectId>, o: Obj, r: seq<Option<Obj>>, rest: seq<Token>)
    requires !TakesValueTypeBranch(v, declared) && ReuseOn(v, sel)
    requires typeId.Some? ==> typeId.value in sel.byId && sel.byId[typeId.value] == c
    requires typeId.None? ==> ExpectedCodec(LooksUpLazily(v), sel, declared, dataSerializer) == Ok(c)
    ensures var input := FrameTokens(ObjectFrame(Some(|r|), typeId)) + [Payload(c, Some(o))] + rest;
      var e := ReadSpec(v, sel, externals, hasCallback, declared, dataSerializer, objIn, input, r);
      && e.result == Ok(Some(o))
      && e.consumed == |FrameTokens(ObjectFrame(Some(|r|), typeId))| + 1
      && e.refs == r + [Some(o)]
  {
    var flags := FrameFlags(ObjectFrame(Some(|r|), typeId));
    var body := (if typeId.Some? then [TypeIdBytes(typeId.value)] else []) + [Payload(c, Some(o))] + rest;
    var input := FrameTokens(ObjectFrame(Some(|r|), typeId)) + [Payload(c, Some(o))] + rest;
    assert input == [FlagsByte(flags), Int32Value(|r|)] + body;
    assert input[2..] == body;
    FirstSeenRoundTrip(v, sel, hasCallback, declared, dataSerializer, objIn, c, typeId, o, rest,
                       r + [None], flags, |r|);
    assert (r + [None])[|r| := Some(o)] == r + [Some(o)];
  }

  /** A first-seen object without reuse: no index, no table. */
  lemma FirstSeenPlainRoundTrip(
    v: Variant, sel: SerializerSelector, externals: Option<map<Guid, Obj>>, hasCallback: bool,
    declared: DeclaredType, dataSerializer: Option<Codec>, objIn: Option<Obj>,
    c: Codec, typeId: Option<ObjectId>, o: Obj, r: seq<Option<Obj>>, rest: seq<Token>)
    requires !TakesValueTypeBranch(v, declared) && v.tier != NullableTier && !ReuseOn(v, sel)
    requires typeId.Some? ==> typeId.value in sel.byId && sel.byId[typeId.value] == c
    requires typeId.None? ==> ExpectedCodec(LooksUpLazily(v), sel, declared, dataSerializer) == Ok(c)
    ensures var input := FrameTokens(ObjectFrame(None, typeId)) + [Payload(c, Some(o))] + rest;
      var e := ReadSpec(v, sel, externals, hasCallback, declared, dataSerializer, objIn, input, r);
      && e.result == Ok(Some(o))
      && e.consumed == |FrameTokens(ObjectFrame(None, typeId))| + 1
      && e.refs == r
  {
    var flags := FrameFlags(ObjectFrame(None, typeId));
    var body := (if typeId.Some? then [TypeIdBytes(typeId.value)] else []) + [Payload(c, Some(o))] + rest;
    var input := FrameTokens(ObjectFrame(None, typeId)) + [Payload(c, Some(o))] + rest;
    assert input == [FlagsByte(flags)] + body;
    assert input[1..] == body;
    FirstSeenRoundTrip(v, sel, hasCallback, declared, dataSerializer, objIn, c, typeId, o, rest,
                       r, flags, -1);
  }

  /** A non-null object in the non-sealed and reuse tiers reads back as written. */
  lemma ReferenceRoundTrip(
    v: Variant, sel: SerializerSelector, externals: Option<map<Guid, Obj>>, hasCallback: bool,
    declared: DeclaredType, dataSerializer: Option<Codec>, objIn: Option<Obj>,
    o: Obj, w: map<Obj, int>, r: seq<Option<Obj>>, rest: seq<Token>)
    requires SelectorConsistent(sel)
    requires Corresponds(w, r)
    requires ExternalResolves(externals, o)
    requires !TakesValueTypeBranch(v, declared) && v.tier != NullableTier
    requires WriteReference(v, sel, externals, declared, dataSerializer, o, w).status.Success?
    ensures var we := WriteReference(v, sel, externals, declared, dataSerializer, o, w);
      var re := ReadSpec(v, sel, externals, hasCallback, declared, dataSerializer, objIn, we.emitted + rest, r);
      && re.result == Ok(Some(o)) && re.consumed == |we.emitted| && Corresponds(we.refs, re.refs)
  {
    if ExternalOn(v, sel) && IsExternal(externals, o) {
      ExternalRoundTrip(v, sel, externals, hasCallback, declared, dataSerializer, objIn, o, r, rest);
    } else if ReuseOn(v, sel) && o in w {
      BackReferenceRoundTrip(v, sel, externals, hasCallback, declared, dataSerializer, objIn, o, w, r, rest);
    } else {
      var index := if ReuseOn(v, sel) then Some(|w|) else None;
      var registered := if ReuseOn(v, sel) then w[o := |w|] else w;
      WriteFirstSeenShape(v, sel, declared, dataSerializer, o, index, registered);
      WrittenCodecFoundById(v, sel, declared, dataSerializer, o);
      var (c, typeId) := WrittenCodec(v, sel, declared, dataSerializer, o).value;
      assert FrameTokens(ObjectFrame(index, typeId)) + [Payload(c, Some(o))] + rest
          == WriteReference(v, sel, externals, declared, dataSerializer, o, w).emitted + rest;
      if ReuseOn(v, sel) {
        FirstSeenReuseRoundTrip(v, sel, externals, hasCallback, declared, dataSerializer, objIn, c, typeId, o, r, rest);
        CorrespondsAfterRegister(w, r, o);
      } else {
        FirstSeenPlainRoundTrip(v, sel, externals, hasCallback, declared, dataSerializer, objIn, c, typeId, o, r, rest);
      }
    }
  }

  /**
    The round trip of one member: with a consistent selector, tables in step, and an
    external table that resolves the object, whatever a successful write emits reads
    back (followed by anything) as the value written; the read consumes exactly the
    tokens written; and the tables are in step afterwards.
  */
  lemma RoundTripValue(
    v: Variant, sel: SerializerSelector, externals: Option<map<Guid, Obj>>, hasCallback: bool,
    declared: DeclaredType, dataSerializer: Option<Codec>, objIn: Option<Obj>,
    obj: Option<Obj>, w: map<Obj, int>, r: seq<Option<Obj>>, rest: seq<Token>)
    requires SelectorConsistent(sel)
    requires Corresponds(w, r)
    requires obj.Some? ==> ExternalResolves(externals, obj.value)
    requires WriteSpec(v, sel, externals, declared, dataSerializer, obj, w).status.Success?
    ensures var we := WriteSpec(v, sel, externals, declared, dataSerializer, obj, w);
      var re := ReadSpec(v, sel, externals, hasCallback, declared, dataSerializer, objIn, we.emitted + rest, r);
      && re.result == Ok(obj) && re.consumed == |we.emitted| && Corresponds(we.refs, re.refs)
  {
    var we := WriteSpec(v, sel, externals, declared, dataSerializer, obj, w);
    var input := we.emitted + rest;
    if TakesValueTypeBranch(v, declared) {
      assert input[0] == we.emitted[0];
    } else if obj.None? {
      assert input[0] == FlagsByte(NullFlags);
    } else if v.tier == NullableTier {
      var c := ExpectedCodec(LooksUpLazily(v), sel, declared, dataSerializer).value;
      assert input[0] == FlagsByte(NoFlags);
      assert input[1..] == [Payload(c, obj)] + rest;
      DecodePayloadRoundTrip(c, false, hasCallback, -1, objIn, r, obj, rest);
    } else {
      ReferenceRoundTrip(v, sel, externals, hasCallback, declared, dataSerializer, objIn, obj.value, w, r, rest);
    }
  }
}
