/** The schema descriptor `SSZField`: an immutable record of everything the
    codec knows about one field or type (its Java type, its `@SSZ`
    annotation, extra type and size hints, its name and getter). */
module Descriptors {
  import opened SszBase

  /** A Java class, by its fully qualified name. */
  type ClassName = string

  const HASH32_CLASS: ClassName := "tech.pegasys.artemis.ethereum.core.Hash32"
  const VOID_CLASS: ClassName := "void"

  /** A `java.lang.reflect.Type` of one of the two kinds a descriptor holds:
      a plain class, or a parameterised type over a raw class. */
  datatype JavaType =
    | ClassType(cls: ClassName)
    | ParametrizedType(rawType: ClassName, typeArguments: seq<JavaType>)

  /** The members of the `@SSZ` field annotation that size resolution reads. */
  datatype SszAnnotation = SszAnnotation(
    vectorLength: JavaInt,
    vectorLengthVar: string,
    maxSize: JavaLong,
    maxSizeVar: string)

  /** `SSZField`; a Java `null` member is `None`. */
  datatype SszField = SszField(
    fieldType: JavaType,
    fieldAnnotation: Option<SszAnnotation>,
    extraType: Option<string>,
    extraSize: Option<JavaInt>,
    name: Option<string>,
    getter: Option<string>)

  /** What `resolveFromValue` can observe of a runtime value: whether it is
      a `java.util.List`, a `ReadList` (with the class of its size object)
      or neither, and the classes of its elements. */
  datatype ValueShape =
    | JavaList(elementClasses: seq<ClassName>)
    | ReadList(sizeClass: ClassName, elementClasses: seq<ClassName>)
    | Plain

  datatype RuntimeValue = RuntimeValue(cls: ClassName, shape: ValueShape)

  /** The one-argument constructor `SSZField(Type)`. */
  function OfType(fieldType: JavaType): (f: SszField)
    ensures f.fieldType == fieldType
    ensures f.fieldAnnotation == None && f.extraType == None && f.extraSize == None
    ensures f.name == None && f.getter == None
  {
    SszField(fieldType, None, None, None, None, None)
  }

  /** `getRawClass`: the class itself, or the raw class of a parameterised type. */
  function RawClass(f: SszField): (c: ClassName)
    ensures f.fieldType == ClassType(c) || (f.fieldType.ParametrizedType? && f.fieldType.rawType == c)
  {
    match f.fieldType
    case ClassType(c) => c
    case ParametrizedType(raw, _) => raw
  }

  /** `getParametrizedType`: the type when it is parameterised, else null. */
  function ParametrizedTypeOf(f: SszField): (r: Option<JavaType>)
    ensures r.None? <==> f.fieldType.ClassType?
    ensures r.Some? ==> r.value == f.fieldType
  {
    if f.fieldType.ParametrizedType? then Some(f.fieldType) else None
  }

  /** `resolveFromValue(value, clazz)`: a non-empty list is described with the
      class of its first element as type argument, a non-empty `ReadList`
      with the classes of its size and of its first element, anything else
      by the plain class. */
  function ResolveFromValue(value: RuntimeValue, clazz: ClassName): (f: SszField)
    ensures f == OfType(f.fieldType)
    ensures RawClass(f) == clazz
    ensures value.shape.JavaList? && value.shape.elementClasses != [] ==>
              f.fieldType == ParametrizedType(clazz, [ClassType(value.shape.elementClasses[0])])
    ensures value.shape.ReadList? && value.shape.elementClasses != [] ==>
              f.fieldType == ParametrizedType(clazz, [ClassType(value.shape.sizeClass),
                                                       ClassType(value.shape.elementClasses[0])])
    ensures value.shape.Plain? || value.shape.elementClasses == [] ==> f.fieldType == ClassType(clazz)
  {
    match value.shape
    case JavaList(elems) =>
      if elems != [] then OfType(ParametrizedType(clazz, [ClassType(elems[0])]))
      else OfType(ClassType(clazz))
    case ReadList(sizeClass, elems) =>
      if elems != [] then OfType(ParametrizedType(clazz, [ClassType(sizeClass), ClassType(elems[0])]))
      else OfType(ClassType(clazz))
    case Plain => OfType(ClassType(clazz))
  }

  /** `resolveFromValue(value)`: described by the value's own class, with
      the same type arguments for a non-empty list or `ReadList`. */
  function ResolveFromOwnClass(value: RuntimeValue): (f: SszField)
    ensures f == OfType(f.fieldType)
    ensures RawClass(f) == value.cls
    ensures value.shape.JavaList? && value.shape.elementClasses != [] ==>
              f.fieldType == ParametrizedType(value.cls, [ClassType(value.shape.elementClasses[0])])
    ensures value.shape.ReadList? && value.shape.elementClasses != [] ==>
              f.fieldType == ParametrizedType(value.cls, [ClassType(value.shape.sizeClass),
                                                          ClassType(value.shape.elementClasses[0])])
    ensures value.shape.Plain? || value.shape.elementClasses == [] ==> f.fieldType == ClassType(value.cls)
  {
    ResolveFromValue(value, value.cls)
  }

  /** The argument of `equals(Object)`: null, a descriptor, or an object of another class. */
  datatype JavaRef = NullRef | FieldRef(field: SszField) | OtherObject

  /** `a != null ? a.equals(b) : b == null`. */
  function NullSafeEquals<T(==)>(a: Option<T>, b: Option<T>): (r: bool)
    ensures r <==> a == b
  {
    if a.Some? then b.Some? && a.value == b.value else b.None?
  }

  /** `equals`: only descriptors compare equal, and only when all six members do. */
  function Equals(f: SszField, o: JavaRef): (r: bool)
    ensures r <==> o.FieldRef? && o.field == f
  {
    match o
    case NullRef => false
    case OtherObject => false
    case FieldRef(g) =>
      && f.fieldType == g.fieldType
      && NullSafeEquals(f.fieldAnnotation, g.fieldAnnotation)
      && NullSafeEquals(f.extraType, g.extraType)
      && NullSafeEquals(f.extraSize, g.extraSize)
      && NullSafeEquals(f.name, g.name)
      && NullSafeEquals(f.getter, g.getter)
  }

  lemma EqualsIsReflexiveAndSymmetric(f: SszField, g: SszField)
    ensures Equals(f, FieldRef(f))
    ensures Equals(f, FieldRef(g)) == Equals(g, FieldRef(f))
    ensures !Equals(f, NullRef)
  {
  }

  /** `hashCode`: the hash of the field type alone; `typeHash` stands for
      `Type.hashCode`. */
  function HashCode(f: SszField, typeHash: JavaType -> JavaInt): JavaInt
  {
    typeHash(f.fieldType)
  }

  /** Descriptors that differ only outside their field type hash alike, so
      equal descriptors hash alike. */
  lemma HashCodeDependsOnlyOnType(f: SszField, g: SszField, typeHash: JavaType -> JavaInt)
    requires f.fieldType == g.fieldType || Equals(f, FieldRef(g))
    ensures HashCode(f, typeHash) == HashCode(g, typeHash)
  {
  }
}
