# SSZ codec core of beacon-chain-java

This project models the serializing half of the SSZ ("simple serialize")
codec in beacon-chain-java, and proves properties of that model. It covers:

- the offset-based serializer `SosSerializer`: vectors, bounded lists,
  sub-lists, unions and composites;
- the resolver `SimpleTypeResolver`, which turns a field descriptor into an
  SSZ type node and reads vector lengths and maximum sizes from the `@SSZ`
  annotation or from named external constants;
- the field descriptor `SSZField`;
- the basic accessor `HashCodec` for 32-byte hashes;
- the wrapping accessor `SubclassCodec`, which codes a class as the class
  its `serializeAs` annotation names;
- the `VirtualMerkleTrie`, which reports an installed root instead of a
  computed one.

Modules:

- `SszBase`: shared vocabulary. It holds bytes, the Java `int`/`long`
  ranges, `Option`/`Result`, the codec's exception kinds and unsigned
  little-endian integers. It also holds `Flatten` (the concatenation of
  byte strings) and an `OutputStream` class whose writes either append or
  fail.
- `SosSerializer`: the serializer. The private `visitComposite` is a method
  whose three loops are three methods. Each is proved against specification
  functions:
  - `FixedPart`: the fixed-size children's bytes and the 4-byte offsets of
    the variable-size children;
  - `VariablePart`: the variable-size children's bytes;
  - `Serialization`: the two parts concatenated.

  Lemmas about `Serialization` then give the layout as a decoder would read
  it:
  - its length;
  - where each child's slot lies;
  - each offset reads back as an unsigned little-endian integer;
  - each offset points at its child's bytes;
  - offsets advance;
  - a composite of fixed-size children only is plain concatenation.
- `TypeResolver`: `resolveSSZType`, `getVectorSize` and `getMaxSize`, with
  the accessor registry and the external constants as parameters.
- `Descriptors`: `SSZField`, its constructors, `equals` and `hashCode`.
- `BasicAccessors`: the operations of a basic accessor as a record of
  functions, so that one accessor can wrap another.
- `HashCodec` and `SubclassCodec`: the two accessors.
- `VirtualMerkle`: the trie as a class with a node array and a root field.

Offsets count from the start of the composite's own encoding. So the first
variable-size child's offset equals the length of the fixed part:
`visitComposite` starts `currentOffset` at that length
(`visitor/SosSerializer.java:106-110`). `SosSerializer.TwoVariableChildren`
shows this on a concrete composite: children of 1 and 2 bytes get the
offsets 8 and 9, followed by the two bodies.

`SSZType.VARIABLE_SIZE` and `SosDeserializer.BYTES_PER_LENGTH_OFFSET` are
defined in files that are not part of this model.
- `VARIABLE_SIZE` is this implementation's sentinel for "no fixed length"
  or "no bound". The model takes it as -1.
- `BYTES_PER_LENGTH_OFFSET` is the width of an offset in the SSZ format,
  which is 4 bytes.

## Model

| member | source | states |
|---|---|---|
| SszBase.LittleEndianRoundTrip | ssz/src/main/java/org/ethereum/beacon/ssz/visitor/SosSerializer.java:27-29 | reading back the `width` little-endian bytes written for `n < 256^width` gives `n` |
| SszBase.LittleEndianOfRead | ssz/src/main/java/org/ethereum/beacon/ssz/visitor/SosSerializer.java:27-29 | writing the number that some bytes read as gives those bytes: every 4-byte string is the encoding of exactly one length |
| SszBase.FlattenConcat | ssz/src/main/java/org/ethereum/beacon/ssz/visitor/SosSerializer.java:129 | concatenating a list of pieces split in two is the concatenation of the two halves' concatenations |
| SszBase.OutputStream.Write | ssz/src/main/java/org/ethereum/beacon/ssz/access/basic/HashCodec.java:64-70 | a write to a working stream appends exactly the bytes and reports success; on a broken stream it fails, and in this model it writes nothing |
| SosSerializer.SerializeLength | ssz/src/main/java/org/ethereum/beacon/ssz/visitor/SosSerializer.java:27-29 | a length below 2^32 is written as exactly 4 bytes |
| SosSerializer.SerializeLengthReadsBack | ssz/src/main/java/org/ethereum/beacon/ssz/visitor/SosSerializer.java:27-29 | the 4 bytes written for a length read back, unsigned little-endian, as that length |
| SosSerializer.SmallOffsets | ssz/src/main/java/org/ethereum/beacon/ssz/visitor/SosSerializer.java:27-29 | the lengths 8 and 9 are written low byte first, followed by three zero bytes |
| SosSerializer.VisitList | ssz/src/main/java/org/ethereum/beacon/ssz/visitor/SosSerializer.java:38-58 | a vector fails with `SSZSerializeException` exactly when its element count differs from its length; a list fails that way exactly when it has a maximum and more elements than it; otherwise the result is the composite layout of all elements, with the type's fixed-size flag |
| SosSerializer.VisitSubList | ssz/src/main/java/org/ethereum/beacon/ssz/visitor/SosSerializer.java:60-68 | the composite layout of the elements `[startIdx, startIdx + len)` only, with no length check |
| SosSerializer.VisitUnion | ssz/src/main/java/org/ethereum/beacon/ssz/visitor/SosSerializer.java:70-83 | always variable-size; the first 4 bytes read back as the type index; index 0 of a nullable union is those 4 bytes alone; otherwise the chosen variant's bytes follow them |
| SosSerializer.VisitComposite | ssz/src/main/java/org/ethereum/beacon/ssz/visitor/SosSerializer.java:85-91 | the composite layout of all the value's children, with the type's fixed-size flag |
| SosSerializer.VisitCompositeRange | ssz/src/main/java/org/ethereum/beacon/ssz/visitor/SosSerializer.java:93-130 | the bytes built by the three loops are the fixed part followed by the variable part of the children's results, and the flag is the type's |
| SosSerializer.SerializeChildren | ssz/src/main/java/org/ethereum/beacon/ssz/visitor/SosSerializer.java:100-104 | the results of visiting children `startIdx` to `startIdx + len - 1`, in order |
| SosSerializer.ListFixedPart | ssz/src/main/java/org/ethereum/beacon/ssz/visitor/SosSerializer.java:106-120 | the running offset starts at the fixed part's length; the pieces are, per child, its bytes if fixed-size, else the offset so far, which then moves past the child's bytes |
| SosSerializer.ListVariablePart | ssz/src/main/java/org/ethereum/beacon/ssz/visitor/SosSerializer.java:122-127 | appends the bytes of the variable-size children, in order, and nothing else |
| SosSerializer.SerializationOfPieces | ssz/src/main/java/org/ethereum/beacon/ssz/visitor/SosSerializer.java:112-129 | concatenating the fixed-part pieces and then the variable-part pieces gives the fixed part followed by the variable part |
| SosSerializer.SerializationLength | ssz/src/main/java/org/ethereum/beacon/ssz/visitor/SosSerializer.java:106-129 | the encoding is as long as the fixed-size children's bytes, plus 4 per variable-size child, plus the variable-size children's bytes |
| SosSerializer.FirstOffset | ssz/src/main/java/org/ethereum/beacon/ssz/visitor/SosSerializer.java:106-110 | the first variable-size child's offset is the fixed part's length: each fixed-size child's byte count, plus 4 per variable-size child |
| SosSerializer.SlotAt | ssz/src/main/java/org/ethereum/beacon/ssz/visitor/SosSerializer.java:112-120 | child `i`'s slot lies in the encoding right after the slots of the children before it |
| SosSerializer.FixedChildInline | ssz/src/main/java/org/ethereum/beacon/ssz/visitor/SosSerializer.java:112-120 | a fixed-size child's bytes appear in full at its place in the fixed part |
| SosSerializer.OffsetReadsBack | ssz/src/main/java/org/ethereum/beacon/ssz/visitor/SosSerializer.java:112-120 | a variable-size child's slot is 4 bytes that read back as its offset |
| SosSerializer.BodyAtOffset | ssz/src/main/java/org/ethereum/beacon/ssz/visitor/SosSerializer.java:112-127 | a variable-size child's bytes lie in the encoding starting at its offset |
| SosSerializer.OffsetsAdvance | ssz/src/main/java/org/ethereum/beacon/ssz/visitor/SosSerializer.java:115-120 | a later variable-size child's offset is at least an earlier one's plus the earlier one's length, and equal to it when only fixed-size children lie between them |
| SosSerializer.AllFixedIsConcatenation | ssz/src/main/java/org/ethereum/beacon/ssz/visitor/SosSerializer.java:112-129 | when every child is fixed-size the encoding is the children's bytes concatenated in order |
| SosSerializer.TwoVariableChildren | ssz/src/main/java/org/ethereum/beacon/ssz/visitor/SosSerializer.java:106-129 | children of 1 and 2 variable bytes encode as offsets 8 and 9 and then the two bodies |
| TypeResolver.IntValue | ssz/src/main/java/org/ethereum/beacon/ssz/type/SimpleTypeResolver.java:62-64 | the narrowed `int` agrees with the `long` modulo 2^32, and equals it when it is in `int` range |
| TypeResolver.ResolveOrThrow | ssz/src/main/java/org/ethereum/beacon/ssz/type/SimpleTypeResolver.java:60-67 | a named constant resolves exactly when it is registered, to its value; otherwise resolution fails naming it |
| TypeResolver.GetVectorSize | ssz/src/main/java/org/ethereum/beacon/ssz/type/SimpleTypeResolver.java:52-68 | no annotation gives `VARIABLE_SIZE`; a positive literal wins; else a non-empty variable name is looked up and narrowed to `int`, and fails exactly when unknown; else `VARIABLE_SIZE` |
| TypeResolver.GetMaxSize | ssz/src/main/java/org/ethereum/beacon/ssz/type/SimpleTypeResolver.java:70-86 | the same precedence over `maxSize` and `maxSizeVar`, with the value kept as a `long` |
| TypeResolver.ResolveSszType | ssz/src/main/java/org/ethereum/beacon/ssz/type/SimpleTypeResolver.java:24-50 | the node's kind and accessor are those of the first accessor kind, in the order basic, list, union, container, that supports the descriptor; a list node carries the resolved sizes; when the vector size or then the maximum size fails to resolve, resolution fails with that error; with no accessor it fails with `SSZSchemeException` |
| TypeResolver.LiteralTakesPrecedence | ssz/src/main/java/org/ethereum/beacon/ssz/type/SimpleTypeResolver.java:52-86 | positive literal sizes decide both sizes whatever the variable names and the registered constants |
| TypeResolver.MoreVariablesKeepResolution | ssz/src/main/java/org/ethereum/beacon/ssz/type/SimpleTypeResolver.java:24-86 | registering more constants never changes a node that already resolved |
| Descriptors.OfType | ssz/src/main/java/org/ethereum/beacon/ssz/access/SSZField.java:58-61 | the one-argument constructor keeps the type and leaves every other member null |
| Descriptors.RawClass | ssz/src/main/java/org/ethereum/beacon/ssz/access/SSZField.java:63-66 | the raw class is the type itself when it is a class, else the raw type of the parameterised type |
| Descriptors.ParametrizedTypeOf | ssz/src/main/java/org/ethereum/beacon/ssz/access/SSZField.java:68-70 | null exactly when the type is a plain class, else the type itself |
| Descriptors.ResolveFromValue | ssz/src/main/java/org/ethereum/beacon/ssz/access/SSZField.java:20-31 | the raw class is the given class; a non-empty list is parameterised by its first element's class, a non-empty `ReadList` by its size class and first element's class, anything else is the plain class; no other member is set |
| Descriptors.ResolveFromOwnClass | ssz/src/main/java/org/ethereum/beacon/ssz/access/SSZField.java:20-38 | the raw class is the value's own class; a non-empty list or `ReadList` gets the same type arguments as in the two-argument form; no other member is set |
| Descriptors.NullSafeEquals | ssz/src/main/java/org/ethereum/beacon/ssz/access/SSZField.java:118-131 | two nullable members compare equal exactly when both are null or both hold equal values |
| Descriptors.Equals | ssz/src/main/java/org/ethereum/beacon/ssz/access/SSZField.java:103-132 | a descriptor equals exactly the descriptors with the same six members, and never null or an object of another class |
| Descriptors.EqualsIsReflexiveAndSymmetric | ssz/src/main/java/org/ethereum/beacon/ssz/access/SSZField.java:103-132 | `equals` is reflexive and symmetric and false for null |
| Descriptors.HashCodeDependsOnlyOnType | ssz/src/main/java/org/ethereum/beacon/ssz/access/SSZField.java:134-137 | descriptors with the same type, in particular equal ones, have the same hash code |
| HashCodec.SupportedSszTypes | ssz/src/main/java/org/ethereum/beacon/ssz/access/basic/HashCodec.java:43-46 | no SSZ type names are supported |
| HashCodec.SupportedClasses | ssz/src/main/java/org/ethereum/beacon/ssz/access/basic/HashCodec.java:48-51 | `Hash32` is the one supported class |
| HashCodec.GetSize | ssz/src/main/java/org/ethereum/beacon/ssz/access/basic/HashCodec.java:53-56 | every descriptor is sized 32 bytes |
| HashCodec.Encode | ssz/src/main/java/org/ethereum/beacon/ssz/access/basic/HashCodec.java:58-71 | on a working stream the value's bytes, encoded at width 32, are appended; a failing write yields `SSZException` (the stream is modelled as failing before it writes anything) |
| HashCodec.ParseFieldType | ssz/src/main/java/org/ethereum/beacon/ssz/access/basic/HashCodec.java:86-93 | succeeds exactly for `Hash32`, with width 32; any other class fails with `SSZSchemeException` |
| HashCodec.Decode | ssz/src/main/java/org/ethereum/beacon/ssz/access/basic/HashCodec.java:73-84 | a class other than `Hash32` fails with `SSZSchemeException`, not wrapped; for `Hash32` it succeeds exactly when the reader yields 32 bytes, with those bytes, and otherwise fails with `SSZException` |
| HashCodec.EncodeThenDecode | ssz/src/main/java/org/ethereum/beacon/ssz/access/basic/HashCodec.java:58-84 | decoding what was encoded gives the hash back |
| HashCodec.RepackBytesList | ssz/src/main/java/org/ethereum/beacon/ssz/access/basic/HashCodec.java:33-41 | a new array holding the byte strings of the list, in order |
| HashCodec.Accessor | ssz/src/main/java/org/ethereum/beacon/ssz/access/basic/HashCodec.java:43-56 | the accessor record has the codec's supported classes and types and sizes every descriptor 32 |
| SubclassCodec.GetSerializableClass | ssz/src/main/java/org/ethereum/beacon/ssz/access/basic/SubclassCodec.java:69-77 | the `serializeAs` class when the annotation names one other than `void`, else the class itself |
| SubclassCodec.GetSerializableField | ssz/src/main/java/org/ethereum/beacon/ssz/access/basic/SubclassCodec.java:55-62 | a descriptor of the plain serializable class, with annotation, extra type, extra size, name and getter carried over |
| SubclassCodec.NoSubstitutionKeepsField | ssz/src/main/java/org/ethereum/beacon/ssz/access/basic/SubclassCodec.java:55-77 | a plain-class descriptor with no substitution is its own substitute |
| SubclassCodec.SupportedSszTypes | ssz/src/main/java/org/ethereum/beacon/ssz/access/basic/SubclassCodec.java:26-29 | the wrapped accessor's SSZ type names |
| SubclassCodec.SupportedClasses | ssz/src/main/java/org/ethereum/beacon/ssz/access/basic/SubclassCodec.java:31-34 | the wrapped accessor's classes |
| SubclassCodec.DelegationSeesOnlySubstitute | ssz/src/main/java/org/ethereum/beacon/ssz/access/basic/SubclassCodec.java:36-45 | descriptors that agree on raw class and metadata get the same substitute, and so the same size and the same encoding |
| SubclassCodec.Decode | ssz/src/main/java/org/ethereum/beacon/ssz/access/basic/SubclassCodec.java:47-53 | a failure of the wrapped decode propagates unchanged; otherwise the original class is constructed from the decoded substitute |
| SubclassCodec.SubclassOfHashCodec | ssz/src/main/java/org/ethereum/beacon/ssz/access/basic/SubclassCodec.java:36-53 | wrapping `HashCodec`: the size is always 32; a class serialized as anything but `Hash32` fails with `SSZSchemeException`; one serialized as `Hash32` is constructed from the 32 bytes read |
| VirtualMerkle.LeftPad32 | ssz/src/main/java/org/ethereum/beacon/ssz/visitor/VirtualMerkleTrie.java:11-14 | the bytes end the 32-byte result and every byte in front of them is zero |
| VirtualMerkle.LeftPadOfFullWidth | ssz/src/main/java/org/ethereum/beacon/ssz/visitor/VirtualMerkleTrie.java:31-34 | padding a 32-byte root leaves it as it is |
| VirtualMerkle.VirtualMerkleTrie.constructor | ssz/src/main/java/org/ethereum/beacon/ssz/visitor/VirtualMerkleTrie.java:11-14 | the trie keeps the node array and stores the supplied root left-padded to 32 bytes |
| VirtualMerkle.VirtualMerkleTrie.SetFinalRoot | ssz/src/main/java/org/ethereum/beacon/ssz/visitor/VirtualMerkleTrie.java:16-29 | after installing a root, both the pure and the final root are that root |
| VirtualMerkle.VirtualMerkleTrie.Copy | ssz/src/main/java/org/ethereum/beacon/ssz/visitor/VirtualMerkleTrie.java:31-34 | a new trie over the same node array with the same pure and final root |
| VirtualMerkle.CopyKeepsRootsApart | ssz/src/main/java/org/ethereum/beacon/ssz/visitor/VirtualMerkleTrie.java:26-34 | after copying, a root installed on the copy leaves the original's root unchanged, and the other way round, while both share the nodes |

## Left out

- `visitBasicValue` (`SosSerializer.java:31-36`): it only hands the value to the basic type's accessor. The accessors modelled here are `HashCodec` and `SubclassCodec`.
- Deserialization (`SosDeserializer`) is not part of this model. The layout lemmas on `Serialization` state what a decoder relies on.
- The children's own serialization is a parameter (`child`, `variant`). So are the element count and the union's type index. A child visit that throws is not modelled.
- SosSerializer.VisitCompositeRange: requires the encoding to fit a Java byte array (length at most 2^31 - 1). Java `int` overflow of the running offset beyond that is not modelled. The same holds for VisitComposite, VisitSubList and VisitList.
- SosSerializer.VisitUnion: takes the type index as a non-negative `int`. A negative index, which `serializeLength` would reject, is not modelled.
- SosSerializer.SerializeLength: requires a length below 2^32, the range `ofUnsignedIntLittleEndian` accepts.
- The three loops of `visitComposite` are three methods (`SerializeChildren`, `ListFixedPart`, `ListVariablePart`). `VisitCompositeRange` calls them in order.
- `SSZField`'s `ParametrizedTypeImpl` has no `equals` of its own, so two separately built parameterised types are never equal in Java. The model compares parameterised types structurally.
- `java.lang.reflect.Type` kinds other than a plain class and a parameterised type are not modelled (wildcards, arrays, type variables), and neither is the constructor's assertion against them.
- Descriptors.HashCode: `Type.hashCode` is a parameter. The only property stated is that the hash depends on the type alone.
- Annotation lookup and reflective construction (`ConstructorObjCreator`) are function parameters. So are `SSZWriter.encodeBytes` and `SSZReader.readHash`.
- SubclassCodec.GetSize and SubclassCodec.Encoding: no contracts of their own. `DelegationSeesOnlySubstitute` and `SubclassOfHashCodec` state what they compute.
- HashCodec.Encoding: no contract of its own. `Encode` and `EncodeThenDecode` state it.
- A `ClassCastException` from `HashCodec.encode`'s cast of the value to `BytesValue` is not modelled: values are typed as byte strings.
- SszBase.OutputStream.Write: the stream fails atomically: a failing write adds no bytes. `java.io.OutputStream.write` may write part of the bytes before throwing `IOException`. So the model's promise that `HashCodec.Encode` leaves the stream as it was on failure is stronger than what Java guarantees.
- VirtualMerkle.VirtualMerkleTrie.constructor: requires a root of at most 32 bytes. For a longer root `Bytes32.leftPad` throws `IllegalArgumentException`, and that case is not modelled.
- TypeResolver.ResolveOrThrow: external constants are typed as `long` values. A constant that is not a `Number`, which `resolveOrThrow(name, Number.class)` rejects, is not modelled. Neither is a non-integral `Number`, which `intValue`/`longValue` would truncate.
- Descriptors.ResolveFromValue: element classes are never null. A null first element, for which `get(0).getClass()` throws `NullPointerException`, is not modelled.
- SubclassCodec: `encode` is modelled by `Encoding`, the bytes the wrapped accessor writes. The stream write itself, and the wrapped codec's `SSZException` propagating through it, are not modelled.
- Merkle hashing and the base `MerkleTrie` are not part of this model. The node array is kept and shared, but never read.
- VirtualMerkle.VirtualMerkleTrie.GetPureRoot and GetFinalRoot: no contracts of their own. `SetFinalRoot`, `Copy` and `CopyKeepsRootsApart` state them.
