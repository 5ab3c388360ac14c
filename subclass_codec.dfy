/** `SubclassCodec`: lets a class annotated `@SSZSerializable(serializeAs = C)`
    be encoded, sized and decoded as `C` by a wrapped basic accessor. */
module SubclassCodec {
  import opened SszBase
  import opened Descriptors
  import opened BasicAccessors
  import HashCodec

  /** The class annotation lookup: `Some(c)` when the class carries
      `@SSZSerializable` with `serializeAs` = `c` (`void` when left at its
      default), `None` when it carries no such annotation. */
  type SerializeAsLookup = ClassName -> Option<ClassName>

  /** `ConstructorObjCreator.createInstanceWithConstructor(cls, [argClass], [arg])`. */
  type Creator<!D, O> = (ClassName, ClassName, D) -> Result<O, SszError>

  /** `getSerializableClass`: the `serializeAs` class when the annotation
      names one other than `void`, else the class itself. */
  function GetSerializableClass(t: ClassName, lookup: SerializeAsLookup): (c: ClassName)
    ensures c == t || lookup(t) == Some(c)
    ensures lookup(t).Some? && lookup(t).value != VOID_CLASS ==> c == lookup(t).value
    ensures lookup(t).None? || lookup(t) == Some(VOID_CLASS) ==> c == t
  {
    if lookup(t).Some? && lookup(t).value != VOID_CLASS then lookup(t).value else t
  }

  /** `getSerializableField`: a fresh descriptor whose type is the plain
      serializable class; annotation, extra type, extra size, name and
      getter are carried over unchanged. */
  function GetSerializableField(f: SszField, lookup: SerializeAsLookup): (g: SszField)
    ensures g.fieldType == ClassType(GetSerializableClass(RawClass(f), lookup))
    ensures RawClass(g) == GetSerializableClass(RawClass(f), lookup)
    ensures g.fieldAnnotation == f.fieldAnnotation && g.extraType == f.extraType
    ensures g.extraSize == f.extraSize && g.name == f.name && g.getter == f.getter
  {
    SszField(ClassType(GetSerializableClass(RawClass(f), lookup)),
             f.fieldAnnotation, f.extraType, f.extraSize, f.name, f.getter)
  }

  /** Without a substitution a plain-class descriptor is its own substitute. */
  lemma NoSubstitutionKeepsField(f: SszField, lookup: SerializeAsLookup)
    requires f.fieldType.ClassType?
    requires lookup(f.fieldType.cls).None? || lookup(f.fieldType.cls) == Some(VOID_CLASS)
    ensures GetSerializableField(f, lookup) == f
  {
  }

  /** `getSupportedSSZTypes` / `getSupportedClasses`: those of the wrapped accessor. */
  function SupportedSszTypes<V, D, R>(inner: BasicAccessor<V, D, R>): (names: set<string>)
    ensures names == inner.supportedSszTypes
  {
    inner.supportedSszTypes
  }

  function SupportedClasses<V, D, R>(inner: BasicAccessor<V, D, R>): (classes: set<ClassName>)
    ensures classes == inner.supportedClasses
  {
    inner.supportedClasses
  }

  /** `getSize`: the wrapped accessor's size for the substituted descriptor. */
  function GetSize<V, D, R>(inner: BasicAccessor<V, D, R>, f: SszField, lookup: SerializeAsLookup): int
  {
    inner.getSize(GetSerializableField(f, lookup))
  }

  /** `encode`: what the wrapped accessor writes for the same value and the
      substituted descriptor. */
  function Encoding<V, D, R>(inner: BasicAccessor<V, D, R>, value: V, f: SszField, lookup: SerializeAsLookup): seq<byte>
  {
    inner.encoding(value, GetSerializableField(f, lookup))
  }

  /** `decode`: decode as the substitute class, then build the original
      class from that one object; failures of either step propagate. */
  function Decode<V, D, R, O>(inner: BasicAccessor<V, D, R>, f: SszField, reader: R,
                              lookup: SerializeAsLookup, create: Creator<D, O>): (r: Result<O, SszError>)
    ensures inner.decode(GetSerializableField(f, lookup), reader).Failure? ==>
              r == Failure(inner.decode(GetSerializableField(f, lookup), reader).error)
    ensures inner.decode(GetSerializableField(f, lookup), reader).Success? ==>
              r == create(RawClass(f), GetSerializableClass(RawClass(f), lookup),
                          inner.decode(GetSerializableField(f, lookup), reader).value)
  {
    var serializableField := GetSerializableField(f, lookup);
    match inner.decode(serializableField, reader)
    case Failure(e) => Failure(e)
    case Success(obj) => create(RawClass(f), RawClass(serializableField), obj)
  }

  /** The wrapped accessor sees only the substituted class and the metadata:
      two descriptors that agree on those (type arguments aside) are sized
      and encoded alike. */
  lemma DelegationSeesOnlySubstitute<V, D, R>(inner: BasicAccessor<V, D, R>, f: SszField, g: SszField,
                                              value: V, lookup: SerializeAsLookup)
    requires RawClass(f) == RawClass(g)
    requires f.fieldAnnotation == g.fieldAnnotation && f.extraType == g.extraType
    requires f.extraSize == g.extraSize && f.name == g.name && f.getter == g.getter
    ensures GetSerializableField(f, lookup) == GetSerializableField(g, lookup)
    ensures GetSize(inner, f, lookup) == GetSize(inner, g, lookup)
    ensures Encoding(inner, value, f, lookup) == Encoding(inner, value, g, lookup)
  {
  }

  /** Wrapping `HashCodec`: every class is sized 32; a class serialized as
      `Hash32` decodes by reading one hash and constructing the class from
      it; a class serialized as anything else fails with `SSZSchemeException`. */
  lemma SubclassOfHashCodec<O>(encodeBytes: HashCodec.BytesEncoder, f: SszField, reader: HashCodec.HashReader,
                               lookup: SerializeAsLookup, create: Creator<HashCodec.Hash32, O>)
    ensures GetSize(HashCodec.Accessor(encodeBytes), f, lookup) == 32
    ensures GetSerializableClass(RawClass(f), lookup) != HASH32_CLASS ==>
              Decode(HashCodec.Accessor(encodeBytes), f, reader, lookup, create) == Failure(SchemeException)
    ensures GetSerializableClass(RawClass(f), lookup) == HASH32_CLASS &&
            reader(32).Some? && |reader(32).value| == 32 ==>
              Decode(HashCodec.Accessor(encodeBytes), f, reader, lookup, create)
                == create(RawClass(f), HASH32_CLASS, HashCodec.Hash32(reader(32).value))
  {
    var inner := HashCodec.Accessor(encodeBytes);
    var sf := GetSerializableField(f, lookup);
    assert inner.decode(sf, reader) == HashCodec.Decode(sf, reader);
  }
}
