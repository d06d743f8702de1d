/**
  The SerializerSelector as the framing layer sees it (two partial lookups and two
  session-wide switches), and the two codec resolutions built on it: the type-info
  decision of the writer and the lookup of the expected type's codec.
*/
module Registry {
  import opened Wrappers
  import opened Types

  /** GetSerializer(Type), GetSerializer(ref ObjectId), ReuseReferences and
      ExternalIdentifiableAsGuid. */
  datatype SerializerSelector = SerializerSelector(
    byType: map<TypeName, Codec>,
    byId: map<ObjectId, Codec>,
    reuseReferences: bool,
    externalIdentifiableAsGuid: bool)

  /**
    The writer's type-info decision. A sealed declared type is taken as exact;
    otherwise the object's runtime type is compared with the declared one and,
    when they differ, the runtime type's codec is looked up (failing when there is
    none). Type info is then written only when that codec's SerializationType is
    not the declared type; when it is, the decision is cancelled (a hidden subtype
    that its codec reports as the declared type). Ok(Some(c)): write type info and
    use c; Ok(None): no type info.
  */
  function TypeInfoDecision(sel: SerializerSelector, declared: DeclaredType, runtimeType: TypeName)
    : (r: Result<Option<Codec>, SerializationError>)
    ensures declared.isSealed ==> r == Ok(None)
    ensures r.Ok? && r.value.Some? <==>
      && !declared.isSealed && runtimeType != declared.name
      && runtimeType in sel.byType && sel.byType[runtimeType].serializationType != declared.name
    ensures r.Ok? && r.value.Some? ==> r.value.value == sel.byType[runtimeType]
    ensures r.Err? <==> !declared.isSealed && runtimeType != declared.name && runtimeType !in sel.byType
    ensures r.Err? ==> r.error == NoSerializerForType(runtimeType)
  {
    var actual := if declared.isSealed then declared.name else runtimeType;
    if actual == declared.name then Ok(None)
    else if actual !in sel.byType then Err(NoSerializerForType(actual))
    else if sel.byType[actual].serializationType == declared.name then Ok(None)
    else Ok(Some(sel.byType[actual]))
  }

  /**
    The codec for the declared type: the member's own DataSerializer when it has
    one; otherwise the SerializeExtended entry points look it up by the declared
    type (failing when there is none) and the instance entry points have none to use.
  */
  function ExpectedCodec(lazyLookup: bool, sel: SerializerSelector, declared: DeclaredType, dataSerializer: Option<Codec>)
    : (r: Result<Codec, SerializationError>)
    ensures dataSerializer.Some? ==> r == Ok(dataSerializer.value)
    ensures dataSerializer.None? && lazyLookup ==>
      (r.Ok? <==> declared.name in sel.byType) &&
      (r.Ok? ==> r.value == sel.byType[declared.name]) &&
      (r.Err? ==> r.error == NoSerializerForType(declared.name))
    ensures dataSerializer.None? && !lazyLookup ==> r == Err(DataSerializerMissing)
  {
    if dataSerializer.Some? then Ok(dataSerializer.value)
    else if !lazyLookup then Err(DataSerializerMissing)
    else if declared.name in sel.byType then Ok(sel.byType[declared.name])
    else Err(NoSerializerForType(declared.name))
  }

  /** The two lookups agree: a codec found by type is found again by its own type id.
      This is what lets a reader recover, from the identifier alone, the codec the
      writer chose by runtime type. */
  ghost predicate SelectorConsistent(sel: SerializerSelector)
  {
    forall t :: t in sel.byType ==>
      sel.byType[t].serializationTypeId in sel.byId &&
      sel.byId[sel.byType[t].serializationTypeId] == sel.byType[t]
  }
}
