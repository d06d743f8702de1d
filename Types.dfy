/**
  The entities the member serializers work on: type names, serializable objects,
  the codecs (DataSerializer) that write an object's payload, and the errors the
  framing layer raises.
*/
module Types {
  import opened Wrappers

  /** A type, identified by its full name. Reflection over it is reduced to the
      two flags of DeclaredType and to an object's runtime type name. */
  type TypeName = string

  /** ObjectId.HashSize: the number of bytes of a serialized type identifier. */
  const HashSize: nat := 16

  /** ObjectId: the fixed-size hash that names a serializable type on the wire. */
  type ObjectId = s: seq<bv8> | |s| == HashSize witness seq(HashSize, _ => 0 as bv8)

  /** The stable key of an IIdentifiable object. */
  type Guid = bv128

  /** A live reference-type object. Two objects are the same reference exactly when
      they are equal values (the handle is the reference's identity).
      `identifiable` is the Id of an object that implements IIdentifiable. */
  datatype Obj = Obj(handle: nat, runtimeType: TypeName, identifiable: Option<Guid>)

  /** The statically expected type of a member (typeof(T) or objType), with the two
      facts the serializer asks reflection about. */
  datatype DeclaredType = DeclaredType(name: TypeName, isValueType: bool, isSealed: bool)

  /** A DataSerializer: the type it really serializes and that type's identifier. */
  datatype Codec = Codec(serializationType: TypeName, serializationTypeId: ObjectId)

  /** The exceptions the framing layer throws, and the two ways a token stream can
      fail to hold what the reader asks for. */
  datatype SerializationError =
    | NoSerializerForType(typeName: TypeName)                  // "No serializer available for type ..."
    | NoSerializerForTypeId(typeId: ObjectId, baseType: TypeName) // "... for type id ... and base type ..."
    | IndicesOutOfSync(count: int, index: int)                 // "Serialization contentRef indices are out of sync."
    | ReferenceIndexOutOfRange(index: int)                     // List indexer with an index outside the table
    | ExternalTableMissing                                     // TryGetValue on an absent external table
    | DataSerializerMissing                                    // a member serializer built without a DataSerializer
    | EndOfStream
    | UnexpectedToken

  /** Outcome of a write: it returns normally or throws. */
  datatype Status = Success | Failure(error: SerializationError)
}
