/** `SosSerializer`: SSZ serialization with offset-based encoding of
    variable-size children. A composite writes a fixed part (each fixed-size
    child's bytes inline, a 4-byte little-endian offset for each
    variable-size child) followed by the variable-size children's bytes. An
    offset counts bytes from the start of the composite's own encoding, so
    the first one equals the length of the fixed part. */
module SosSerializer {
  import opened SszBase

  /** `SosDeserializer.BYTES_PER_LENGTH_OFFSET`. */
  const BYTES_PER_LENGTH_OFFSET: nat := 4

  /** `SerializerResult`: the bytes of one node and whether its type is fixed-size. */
  datatype SerializerResult = SerializerResult(serializedBody: seq<byte>, fixedSize: bool)

  /** `SSZType.Type` of a list node. */
  datatype ListKind = Vector | List

  /** What the serializer reads of an `SSZListType`: its kind, its
      fixed-size flag, and the sizes that `TypeResolver.ResolveSszType`
      stores in a `TypeResolver.SszType.ListType` node. */
  datatype ListType = ListType(kind: ListKind, vectorLength: JavaInt, maxSize: JavaLong, fixedSize: bool)

  /** `serializeLength`: a length or index as 4 little-endian bytes. */
  function SerializeLength(len: nat): (r: seq<byte>)
    requires len < UINT32_LIMIT
    ensures |r| == BYTES_PER_LENGTH_OFFSET
  {
    Pow256Four();
    UnsignedLittleEndian(len, 4)
  }

  /** The four bytes read back, as an unsigned little-endian integer, as
      the length written. */
  lemma {:induction false} SerializeLengthReadsBack(len: nat)
    requires len < UINT32_LIMIT
    ensures FromLittleEndian(SerializeLength(len)) == len
  {
    Pow256Four();
    LittleEndianRoundTrip(len, 4);
  }

  // ---------------------------------------------------------------------
  // The layout of a composite, as functions of its children's results.
  // Each is defined over the first `n` children and recurses on the last
  // of them, the order the encoder appends in.
  // ---------------------------------------------------------------------

  /** The width a child takes in the fixed part. */
  function SlotLength(c: SerializerResult): nat
  {
    if c.fixedSize then |c.serializedBody| else BYTES_PER_LENGTH_OFFSET
  }

  /** The bytes a child contributes to the variable part. */
  function VariableBytes(c: SerializerResult): seq<byte>
  {
    if c.fixedSize then [] else c.serializedBody
  }

  /** The length of the fixed part of the first `n` children. */
  function FixedPartLength(cs: seq<SerializerResult>, n: nat): nat
    requires n <= |cs|
  {
    if n == 0 then 0 else FixedPartLength(cs, n - 1) + SlotLength(cs[n - 1])
  }

  /** The length of the variable part of the first `n` children. */
  function VariablePartLength(cs: seq<SerializerResult>, n: nat): nat
    requires n <= |cs|
  {
    if n == 0 then 0 else VariablePartLength(cs, n - 1) + |VariableBytes(cs[n - 1])|
  }

  function EncodedLength(cs: seq<SerializerResult>): nat
  {
    FixedPartLength(cs, |cs|) + VariablePartLength(cs, |cs|)
  }

  /** The encoding fits a Java byte array, so every offset fits an `int`. */
  predicate FitsJavaArray(cs: seq<SerializerResult>)
  {
    EncodedLength(cs) <= JAVA_INT_MAX
  }

  /** The offset written for child `i`: the fixed part's length plus the
      variable-size bytes of the children before it. */
  function OffsetOf(cs: seq<SerializerResult>, i: nat): nat
    requires i <= |cs|
  {
    FixedPartLength(cs, |cs|) + VariablePartLength(cs, i)
  }

  /** What a child contributes to the fixed part, given the current offset:
      its bytes when fixed-size, else the offset. */
  function Slot(c: SerializerResult, offset: nat): (r: seq<byte>)
    requires offset < UINT32_LIMIT
    ensures |r| == SlotLength(c)
  {
    if c.fixedSize then c.serializedBody else SerializeLength(offset)
  }

  /** The fixed part of the first `n` children, offsets counted on from `start`. */
  function FixedPart(cs: seq<SerializerResult>, n: nat, start: nat): (r: seq<byte>)
    requires n <= |cs|
    requires start + VariablePartLength(cs, n) <= JAVA_INT_MAX
    ensures |r| == FixedPartLength(cs, n)
  {
    if n == 0 then []
    else FixedPart(cs, n - 1, start) + Slot(cs[n - 1], start + VariablePartLength(cs, n - 1))
  }

  /** The variable part of the first `n` children: the variable-size
      children's bytes in child order. */
  function VariablePart(cs: seq<SerializerResult>, n: nat): (r: seq<byte>)
    requires n <= |cs|
    ensures |r| == VariablePartLength(cs, n)
  {
    if n == 0 then [] else VariablePart(cs, n - 1) + VariableBytes(cs[n - 1])
  }

  /** The encoding of a composite whose children serialized to `cs`. */
  function Serialization(cs: seq<SerializerResult>): (r: seq<byte>)
    requires FitsJavaArray(cs)
    ensures |r| == EncodedLength(cs)
  {
    FixedPart(cs, |cs|, FixedPartLength(cs, |cs|)) + VariablePart(cs, |cs|)
  }

  /** The pieces the encoder lists for the fixed part of the first `n`
      children: one slot each. */
  function FixedPieces(cs: seq<SerializerResult>, n: nat, start: nat): (r: seq<seq<byte>>)
    requires n <= |cs|
    requires start + VariablePartLength(cs, n) <= JAVA_INT_MAX
    ensures |r| == n
  {
    if n == 0 then []
    else FixedPieces(cs, n - 1, start) + [Slot(cs[n - 1], start + VariablePartLength(cs, n - 1))]
  }

  /** The pieces the encoder lists for the variable part of the first `n`
      children: the body of each variable-size one. */
  function VariablePieces(cs: seq<SerializerResult>, n: nat): seq<seq<byte>>
    requires n <= |cs|
  {
    if n == 0 then []
    else if cs[n - 1].fixedSize then VariablePieces(cs, n - 1)
    else VariablePieces(cs, n - 1) + [cs[n - 1].serializedBody]
  }

  /** The results of children `[startIdx, startIdx + len)`. */
  function Children(child: nat -> SerializerResult, startIdx: nat, len: nat): (cs: seq<SerializerResult>)
    ensures |cs| == len
  {
    seq(len, k requires 0 <= k => child(startIdx + k))
  }

  // ---------------------------------------------------------------------
  // The serializer
  // ---------------------------------------------------------------------

  /** The private `visitComposite` over children `[startIdx, startIdx + len)`:
      serialize each child, list the fixed part's pieces while advancing
      the running offset, then the variable part's, and concatenate them.
      Its three loops are the three methods below. */
  method VisitCompositeRange(typeFixedSize: bool, child: nat -> SerializerResult, startIdx: nat, len: nat)
    returns (r: SerializerResult)
    requires FitsJavaArray(Children(child, startIdx, len))
    ensures r.fixedSize == typeFixedSize
    ensures r.serializedBody == Serialization(Children(child, startIdx, len))
  {
    var childSerializations := SerializeChildren(child, startIdx, len);
    var pieces := ListFixedPart(childSerializations);
    pieces := ListVariablePart(childSerializations, pieces);
    SerializationOfPieces(childSerializations);
    r := SerializerResult(Flatten(pieces), typeFixedSize);
  }

  /** The first loop: the results of visiting children `[startIdx, startIdx + len)`, in order. */
  method SerializeChildren(child: nat -> SerializerResult, startIdx: nat, len: nat)
    returns (childSerializations: seq<SerializerResult>)
    ensures childSerializations == Children(child, startIdx, len)
  {
    childSerializations := [];
    var i := startIdx;
    while i < startIdx + len
      invariant startIdx <= i <= startIdx + len
      invariant childSerializations == Children(child, startIdx, i - startIdx)
    {
      ChildrenStep(child, startIdx, i - startIdx);
      childSerializations := childSerializations + [child(i)];
      i := i + 1;
    }
  }

  /** The fixed-part loop: the running offset starts at the fixed part's
      length; each child contributes its slot, and a variable-size child
      moves the offset past its bytes. */
  method ListFixedPart(childSerializations: seq<SerializerResult>) returns (pieces: seq<seq<byte>>)
    requires FitsJavaArray(childSerializations)
    ensures pieces == FixedPieces(childSerializations, |childSerializations|,
                                  FixedPartLength(childSerializations, |childSerializations|))
  {
    ghost var n := |childSerializations|;
    // The first offset is the length of the whole fixed part.
    var currentOffset := FixedPartLength(childSerializations, |childSerializations|);
    ghost var start := currentOffset;

    pieces := [];
    var j := 0;
    while j < |childSerializations|
      invariant 0 <= j <= n
      invariant VariablePartLength(childSerializations, j) <= VariablePartLength(childSerializations, n)
      invariant currentOffset == start + VariablePartLength(childSerializations, j)
      invariant pieces == FixedPieces(childSerializations, j, start)
    {
      var s := childSerializations[j];
      PrefixLengthsMonotone(childSerializations, j + 1, n);
      pieces := pieces + [Slot(s, currentOffset)];
      if !s.fixedSize {
        currentOffset := currentOffset + |s.serializedBody|;
      }
      j := j + 1;
    }
  }

  /** The variable-part loop: the bytes of each variable-size child, in order. */
  method ListVariablePart(childSerializations: seq<SerializerResult>, fixedPieces: seq<seq<byte>>)
    returns (pieces: seq<seq<byte>>)
    ensures pieces == fixedPieces + VariablePieces(childSerializations, |childSerializations|)
  {
    pieces := fixedPieces;
    var j := 0;
    while j < |childSerializations|
      invariant 0 <= j <= |childSerializations|
      invariant pieces == fixedPieces + VariablePieces(childSerializations, j)
    {
      var s := childSerializations[j];
      if !s.fixedSize {
        pieces := pieces + [s.serializedBody];
      }
      j := j + 1;
    }
  }

  /** The public `visitComposite`: all of the value's children. */
  method VisitComposite(typeFixedSize: bool, childrenCount: nat, child: nat -> SerializerResult)
    returns (r: SerializerResult)
    requires FitsJavaArray(Children(child, 0, childrenCount))
    ensures r == SerializerResult(Serialization(Children(child, 0, childrenCount)), typeFixedSize)
  {
    r := VisitCompositeRange(typeFixedSize, child, 0, childrenCount);
  }

  /** `visitList`: a vector whose element count differs from its length,
      and a bounded list with more elements than its maximum, are rejected
      with `SSZSerializeException` before anything is encoded; otherwise all
      elements are encoded as a composite. */
  method VisitList(t: ListType, childrenCount: nat, child: nat -> SerializerResult)
    returns (r: Result<SerializerResult, SszError>)
    requires t.kind == Vector && childrenCount == t.vectorLength ==> FitsJavaArray(Children(child, 0, childrenCount))
    requires t.kind == List && !(VARIABLE_SIZE < t.maxSize < childrenCount) ==>
               FitsJavaArray(Children(child, 0, childrenCount))
    ensures t.kind == Vector ==> (r.Failure? <==> childrenCount != t.vectorLength)
    ensures t.kind == List ==> (r.Failure? <==> VARIABLE_SIZE < t.maxSize < childrenCount)
    ensures r.Failure? ==> r.error == SerializeException
    ensures r.Success? ==>
              r.value == SerializerResult(Serialization(Children(child, 0, childrenCount)), t.fixedSize)
  {
    if t.kind == Vector {
      if childrenCount != t.vectorLength {
        return Failure(SerializeException);
      }
    } else if t.kind == List && t.maxSize > VARIABLE_SIZE {
      if childrenCount > t.maxSize {
        return Failure(SerializeException);
      }
    }
    var res := VisitComposite(t.fixedSize, childrenCount, child);
    r := Success(res);
  }

  /** `visitSubList`: the composite layout over children
      `[startIdx, startIdx + len)` only, with no length checks. */
  method VisitSubList(t: ListType, child: nat -> SerializerResult, startIdx: nat, len: nat)
    returns (r: SerializerResult)
    requires FitsJavaArray(Children(child, startIdx, len))
    ensures r == SerializerResult(Serialization(Children(child, startIdx, len)), t.fixedSize)
  {
    r := VisitCompositeRange(t.fixedSize, child, startIdx, len);
  }

  /** `visitUnion`: the 4-byte little-endian type index, then the chosen
      variant's bytes; the variant is not visited, and nothing follows the
      index, for index 0 of a nullable union. Always variable-size. */
  function VisitUnion(nullable: bool, typeIndex: nat, variant: nat -> SerializerResult): (r: SerializerResult)
    requires typeIndex <= JAVA_INT_MAX
    ensures !r.fixedSize
    ensures |r.serializedBody| >= BYTES_PER_LENGTH_OFFSET
    ensures FromLittleEndian(r.serializedBody[..BYTES_PER_LENGTH_OFFSET]) == typeIndex
    ensures typeIndex == 0 && nullable ==> |r.serializedBody| == BYTES_PER_LENGTH_OFFSET
    ensures !(typeIndex == 0 && nullable) ==>
              r.serializedBody[BYTES_PER_LENGTH_OFFSET..] == variant(typeIndex).serializedBody
  {
    var typeIndexBytes := SerializeLength(typeIndex);
    var body := if typeIndex > 0 || !nullable then variant(typeIndex).serializedBody else [];
    SerializeLengthReadsBack(typeIndex);
    assert (typeIndexBytes + body)[..BYTES_PER_LENGTH_OFFSET] == typeIndexBytes;
    SerializerResult(typeIndexBytes + body, false)
  }

  // ---------------------------------------------------------------------
  // Properties of the layout
  // ---------------------------------------------------------------------

  lemma {:induction false} ChildrenStep(child: nat -> SerializerResult, startIdx: nat, k: nat)
    ensures Children(child, startIdx, k + 1) == Children(child, startIdx, k) + [child(startIdx + k)]
  {
  }

  /** The encoding is the concatenation of the pieces the encoder lists:
      one slot per child, then one body per variable-size child. */
  lemma {:induction false} SerializationOfPieces(cs: seq<SerializerResult>)
    requires FitsJavaArray(cs)
    ensures Flatten(FixedPieces(cs, |cs|, FixedPartLength(cs, |cs|)) + VariablePieces(cs, |cs|))
            == Serialization(cs)
  {
    var start := FixedPartLength(cs, |cs|);
    FlattenConcat(FixedPieces(cs, |cs|, start), VariablePieces(cs, |cs|));
    FixedPiecesFlatten(cs, |cs|, start);
    VariablePiecesFlatten(cs, |cs|);
  }

  lemma {:induction false} FixedPiecesFlatten(cs: seq<SerializerResult>, n: nat, start: nat)
    requires n <= |cs|
    requires start + VariablePartLength(cs, n) <= JAVA_INT_MAX
    ensures Flatten(FixedPieces(cs, n, start)) == FixedPart(cs, n, start)
  {
    if n > 0 {
      FixedPiecesFlatten(cs, n - 1, start);
      FlattenAppend(FixedPieces(cs, n - 1, start), Slot(cs[n - 1], start + VariablePartLength(cs, n - 1)));
      FixedPartStep(cs, n - 1, start);
    }
  }

  lemma {:induction false} VariablePiecesFlatten(cs: seq<SerializerResult>, n: nat)
    requires n <= |cs|
    ensures Flatten(VariablePieces(cs, n)) == VariablePart(cs, n)
  {
    if n > 0 {
      VariablePiecesFlatten(cs, n - 1);
      if !cs[n - 1].fixedSize {
        FlattenAppend(VariablePieces(cs, n - 1), cs[n - 1].serializedBody);
      } else {
        assert VariablePart(cs, n) == VariablePart(cs, n - 1) + [];
        assert VariablePieces(cs, n) == VariablePieces(cs, n - 1);
      }
    }
  }

  /** The first `a` children take no more room than the first `b`, in
      either part. */
  lemma {:induction false} PrefixLengthsMonotone(cs: seq<SerializerResult>, a: nat, b: nat)
    requires a <= b <= |cs|
    ensures FixedPartLength(cs, a) <= FixedPartLength(cs, b)
    ensures VariablePartLength(cs, a) <= VariablePartLength(cs, b)
    decreases b - a
  {
    if a < b {
      PrefixLengthsMonotone(cs, a, b - 1);
    }
  }

  /** Fixed-size children add nothing to the variable part. */
  lemma {:induction false} FixedChildrenAddNoVariableBytes(cs: seq<SerializerResult>, a: nat, b: nat)
    requires a <= b <= |cs|
    requires forall k :: a <= k < b ==> cs[k].fixedSize
    ensures VariablePartLength(cs, a) == VariablePartLength(cs, b)
    decreases b - a
  {
    if a < b {
      FixedChildrenAddNoVariableBytes(cs, a, b - 1);
    }
  }

  /** The fixed part grows by one slot per child. */
  lemma {:induction false} FixedPartStep(cs: seq<SerializerResult>, i: nat, start: nat)
    requires i < |cs|
    requires start + VariablePartLength(cs, i + 1) <= JAVA_INT_MAX
    ensures FixedPart(cs, i + 1, start) == FixedPart(cs, i, start) + Slot(cs[i], start + VariablePartLength(cs, i))
  {
  }

  /** The fixed part of the first `a` children is a prefix of that of the first `b`. */
  lemma {:induction false} FixedPartPrefix(cs: seq<SerializerResult>, a: nat, b: nat, start: nat)
    requires a <= b <= |cs|
    requires start + VariablePartLength(cs, b) <= JAVA_INT_MAX
    ensures FixedPartLength(cs, a) <= FixedPartLength(cs, b)
    ensures VariablePartLength(cs, a) <= VariablePartLength(cs, b)
    ensures FixedPart(cs, b, start)[..FixedPartLength(cs, a)] == FixedPart(cs, a, start)
    decreases b - a
  {
    if a == b {
      assert FixedPart(cs, b, start)[..FixedPartLength(cs, a)] == FixedPart(cs, b, start);
    } else {
      FixedPartPrefix(cs, a, b - 1, start);
      TakeOfConcat(FixedPart(cs, b - 1, start), Slot(cs[b - 1], start + VariablePartLength(cs, b - 1)),
                   FixedPartLength(cs, a));
    }
  }

  /** The variable part of the first `a` children is a prefix of that of the first `b`. */
  lemma {:induction false} VariablePartPrefix(cs: seq<SerializerResult>, a: nat, b: nat)
    requires a <= b <= |cs|
    ensures VariablePartLength(cs, a) <= VariablePartLength(cs, b)
    ensures VariablePart(cs, b)[..VariablePartLength(cs, a)] == VariablePart(cs, a)
    decreases b - a
  {
    if a == b {
      assert VariablePart(cs, b)[..VariablePartLength(cs, a)] == VariablePart(cs, b);
    } else {
      VariablePartPrefix(cs, a, b - 1);
      TakeOfConcat(VariablePart(cs, b - 1), VariableBytes(cs[b - 1]), VariablePartLength(cs, a));
    }
  }

  /** The bytes of the fixed-size children among the first `n`. */
  function FixedBodiesLength(cs: seq<SerializerResult>, n: nat): nat
    requires n <= |cs|
  {
    if n == 0 then 0
    else FixedBodiesLength(cs, n - 1) + (if cs[n - 1].fixedSize then |cs[n - 1].serializedBody| else 0)
  }

  /** The number of variable-size children among the first `n`. */
  function VariableCount(cs: seq<SerializerResult>, n: nat): nat
    requires n <= |cs|
  {
    if n == 0 then 0 else VariableCount(cs, n - 1) + (if cs[n - 1].fixedSize then 0 else 1)
  }

  /** The fixed part is the fixed-size children's bytes plus one 4-byte
      offset per variable-size child. */
  lemma {:induction false} FixedPartLengthSplit(cs: seq<SerializerResult>, n: nat)
    requires n <= |cs|
    ensures FixedPartLength(cs, n) == FixedBodiesLength(cs, n) + BYTES_PER_LENGTH_OFFSET * VariableCount(cs, n)
  {
    if n > 0 {
      FixedPartLengthSplit(cs, n - 1);
    }
  }

  /** The encoding's length: the fixed-size children's bytes, four bytes
      per variable-size child, and the variable-size children's bytes. */
  lemma {:induction false} SerializationLength(cs: seq<SerializerResult>)
    requires FitsJavaArray(cs)
    ensures |Serialization(cs)|
            == FixedBodiesLength(cs, |cs|) + BYTES_PER_LENGTH_OFFSET * VariableCount(cs, |cs|)
               + VariablePartLength(cs, |cs|)
  {
    FixedPartLengthSplit(cs, |cs|);
  }

  /** Child `i`'s slot lies in the fixed part, with offsets counted on
      from `start`, right after the slots of the children before it. */
  lemma {:induction false} SlotInFixedPart(cs: seq<SerializerResult>, i: nat, start: nat)
    requires i < |cs| && start + VariablePartLength(cs, |cs|) <= JAVA_INT_MAX
    ensures VariablePartLength(cs, i) <= VariablePartLength(cs, i + 1) <= VariablePartLength(cs, |cs|)
    ensures FixedPartLength(cs, i) + SlotLength(cs[i]) == FixedPartLength(cs, i + 1) <= FixedPartLength(cs, |cs|)
    ensures FixedPart(cs, |cs|, start)[FixedPartLength(cs, i)..FixedPartLength(cs, i + 1)]
            == Slot(cs[i], start + VariablePartLength(cs, i))
  {
    PrefixLengthsMonotone(cs, i + 1, |cs|);
    FixedPartStep(cs, i, start);
    FixedPartPrefix(cs, i + 1, |cs|, start);
    PieceInPrefix(FixedPart(cs, |cs|, start), FixedPart(cs, i, start), Slot(cs[i], start + VariablePartLength(cs, i)),
                  FixedPartLength(cs, i), FixedPartLength(cs, i + 1));
  }

  /** Child `i`'s slot in the encoding starts after the slots of the
      children before it, and holds what `Slot` gives for it at its offset. */
  lemma {:induction false} SlotAt(cs: seq<SerializerResult>, i: nat)
    requires FitsJavaArray(cs)
    requires i < |cs|
    ensures VariablePartLength(cs, i) <= VariablePartLength(cs, |cs|)
    ensures FixedPartLength(cs, i) + SlotLength(cs[i]) == FixedPartLength(cs, i + 1) <= FixedPartLength(cs, |cs|)
    ensures Serialization(cs)[FixedPartLength(cs, i)..FixedPartLength(cs, i + 1)]
            == Slot(cs[i], FixedPartLength(cs, |cs|) + VariablePartLength(cs, i))
  {
    SlotInFixedPart(cs, i, FixedPartLength(cs, |cs|));
    SliceOfConcatLeft(FixedPart(cs, |cs|, FixedPartLength(cs, |cs|)), VariablePart(cs, |cs|),
                      FixedPartLength(cs, i), FixedPartLength(cs, i + 1));
  }

  /** A fixed-size child's bytes appear inline in the fixed part. */
  lemma {:induction false} FixedChildInline(cs: seq<SerializerResult>, i: nat)
    requires FitsJavaArray(cs)
    requires i < |cs| && cs[i].fixedSize
    ensures FixedPartLength(cs, i + 1) == FixedPartLength(cs, i) + |cs[i].serializedBody| <= FixedPartLength(cs, |cs|)
    ensures Serialization(cs)[FixedPartLength(cs, i)..FixedPartLength(cs, i + 1)] == cs[i].serializedBody
  {
    SlotAt(cs, i);
  }

  /** A variable-size child's slot holds four bytes that read back, as an
      unsigned little-endian integer, as its offset. */
  lemma {:induction false} OffsetReadsBack(cs: seq<SerializerResult>, i: nat)
    requires FitsJavaArray(cs)
    requires i < |cs| && !cs[i].fixedSize
    ensures FixedPartLength(cs, i + 1) == FixedPartLength(cs, i) + BYTES_PER_LENGTH_OFFSET <= FixedPartLength(cs, |cs|)
    ensures FromLittleEndian(Serialization(cs)[FixedPartLength(cs, i)..FixedPartLength(cs, i + 1)]) == OffsetOf(cs, i)
  {
    SlotAt(cs, i);
    SerializeLengthReadsBack(OffsetOf(cs, i));
  }

  /** A variable-size child's offset points at its own bytes: they lie at
      that offset in the encoding. */
  lemma {:induction false} BodyAtOffset(cs: seq<SerializerResult>, i: nat)
    requires FitsJavaArray(cs)
    requires i < |cs| && !cs[i].fixedSize
    ensures OffsetOf(cs, i) + |cs[i].serializedBody| <= |Serialization(cs)|
    ensures Serialization(cs)[OffsetOf(cs, i)..OffsetOf(cs, i) + |cs[i].serializedBody|] == cs[i].serializedBody
  {
    var n := |cs|;
    VariablePartPrefix(cs, i + 1, n);
    PieceInConcat(FixedPart(cs, n, FixedPartLength(cs, n)), VariablePart(cs, n),
                  VariablePart(cs, i), cs[i].serializedBody, OffsetOf(cs, i));
  }

  /** The first variable-size child's offset is the length of the fixed
      part: the sum over all children of their bytes if fixed-size, else 4. */
  lemma {:induction false} FirstOffset(cs: seq<SerializerResult>, i: nat)
    requires i < |cs| && !cs[i].fixedSize
    requires forall k :: 0 <= k < i ==> cs[k].fixedSize
    ensures OffsetOf(cs, i) == FixedPartLength(cs, |cs|)
    ensures FixedPartLength(cs, |cs|) == FixedBodiesLength(cs, |cs|) + BYTES_PER_LENGTH_OFFSET * VariableCount(cs, |cs|)
  {
    FixedChildrenAddNoVariableBytes(cs, 0, i);
    FixedPartLengthSplit(cs, |cs|);
  }

  /** Offsets never decrease: a later variable-size child's offset is at
      least the earlier one's plus the earlier one's length, and exactly
      that when only fixed-size children lie between them. */
  lemma {:induction false} OffsetsAdvance(cs: seq<SerializerResult>, i: nat, k: nat)
    requires i < k < |cs| && !cs[i].fixedSize
    ensures OffsetOf(cs, i) + |cs[i].serializedBody| <= OffsetOf(cs, k)
    ensures (forall m :: i < m < k ==> cs[m].fixedSize) ==>
              OffsetOf(cs, k) == OffsetOf(cs, i) + |cs[i].serializedBody|
  {
    PrefixLengthsMonotone(cs, i + 1, k);
    if forall m :: i < m < k ==> cs[m].fixedSize {
      FixedChildrenAddNoVariableBytes(cs, i + 1, k);
    }
  }

  /** The bodies of the first `n` children. */
  function Bodies(cs: seq<SerializerResult>, n: nat): (bs: seq<seq<byte>>)
    requires n <= |cs|
    ensures |bs| == n
    ensures forall k :: 0 <= k < n ==> bs[k] == cs[k].serializedBody
  {
    seq(n, k requires 0 <= k < n => cs[k].serializedBody)
  }

  /** With no variable-size children the encoding is the children's bytes
      concatenated in order. */
  lemma {:induction false} AllFixedIsConcatenation(cs: seq<SerializerResult>)
    requires FitsJavaArray(cs)
    requires forall k :: 0 <= k < |cs| ==> cs[k].fixedSize
    ensures Serialization(cs) == Flatten(Bodies(cs, |cs|))
  {
    AllFixedParts(cs, |cs|, FixedPartLength(cs, |cs|));
  }

  lemma {:induction false} AllFixedParts(cs: seq<SerializerResult>, n: nat, start: nat)
    requires n <= |cs|
    requires forall k :: 0 <= k < n ==> cs[k].fixedSize
    requires start <= JAVA_INT_MAX
    ensures VariablePartLength(cs, n) == 0 && VariablePart(cs, n) == []
    ensures FixedPart(cs, n, start) == Flatten(Bodies(cs, n))
  {
    if n > 0 {
      AllFixedParts(cs, n - 1, start);
      assert Bodies(cs, n)[..n - 1] == Bodies(cs, n - 1);
    }
  }

  /** The offsets 8 and 9 as written: their low byte, then three zero bytes. */
  lemma {:induction false} SmallOffsets()
    ensures SerializeLength(8) == [8, 0, 0, 0] && SerializeLength(9) == [9, 0, 0, 0]
  {
    Pow256Four();
    LittleEndianOfRead([8, 0, 0, 0]);
    LittleEndianOfRead([9, 0, 0, 0]);
  }

  /** Two variable-size children of 1 and 2 bytes: two offsets, 8 and 9
      (counted from the start of the encoding, past the 8-byte fixed part),
      then the two bodies. */
  lemma {:induction false} TwoVariableChildren()
    ensures var cs := [SerializerResult([65], false), SerializerResult([66, 66], false)];
            FitsJavaArray(cs) && Serialization(cs) == [8, 0, 0, 0, 9, 0, 0, 0, 65, 66, 66]
  {
    var cs := [SerializerResult([65], false), SerializerResult([66, 66], false)];
    assert FixedPartLength(cs, 2) == 8 && VariablePartLength(cs, 1) == 1;
    SmallOffsets();
    assert FixedPart(cs, 2, 8) == [8, 0, 0, 0] + [9, 0, 0, 0];
    assert VariablePart(cs, 2) == [65, 66, 66];
  }
}
