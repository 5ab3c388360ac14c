/** `HashCodec`: the basic accessor for 32-byte hashes (`Hash32`). */
module HashCodec {
  import opened SszBase
  import opened Descriptors
  import opened BasicAccessors

  /** A decoded `Hash32`. */
  datatype Hash32 = Hash32(bytes: Bytes32)

  /** `SSZWriter.encodeBytes(bytes, width)`, a collaborator. */
  type BytesEncoder = (seq<byte>, int) -> seq<byte>

  /** `SSZReader.readHash(size)`: the bytes read, or `None` when the reader throws. */
  type HashReader = nat -> Option<seq<byte>>

  /** `getSupportedSSZTypes`: no SSZ type names. */
  function SupportedSszTypes(): (names: set<string>)
    ensures |names| == 0
  {
    {}
  }

  /** `getSupportedClasses`: `Hash32` and nothing else. */
  function SupportedClasses(): (classes: set<ClassName>)
    ensures forall c :: c in classes <==> c == HASH32_CLASS
  {
    {HASH32_CLASS}
  }

  /** `getSize`: 32 bytes, whatever the descriptor. */
  function GetSize(field: SszField): (n: int)
    ensures n == 32
  {
    32
  }

  /** The bytes `encode` writes: the value's bytes encoded at width `getSize(field)`. */
  function Encoding(value: seq<byte>, field: SszField, encodeBytes: BytesEncoder): seq<byte>
  {
    encodeBytes(value, GetSize(field))
  }

  /** `encode`: writes the encoding to the stream; a failed write is
      reported as `SSZException` and leaves the stream as it was. */
  method Encode(value: seq<byte>, field: SszField, result: OutputStream, encodeBytes: BytesEncoder)
    returns (outcome: Outcome<SszError>)
    modifies result
    ensures outcome.Pass? <==> !old(result.broken)
    ensures outcome.Fail? ==> outcome.error == SszException
    ensures result.broken == old(result.broken)
    ensures result.data == if outcome.Pass? then old(result.data) + Encoding(value, field, encodeBytes) else old(result.data)
  {
    var res := encodeBytes(value, GetSize(field));
    var ok := result.Write(res);
    outcome := if ok then Pass else Fail(SszException);
  }

  /** `parseFieldType`: the hash width of the descriptor's class; only
      `Hash32` has one. */
  function ParseFieldType(field: SszField): (r: Result<nat, SszError>)
    ensures r.Success? <==> RawClass(field) == HASH32_CLASS
    ensures r.Success? ==> r.value == 32
    ensures r.Failure? ==> r.error == SchemeException
  {
    if RawClass(field) == HASH32_CLASS then Success(32) else Failure(SchemeException)
  }

  /** `decode`: reads one hash of the parsed width and wraps it as a
      `Hash32`. An unsupported class fails with `SSZSchemeException` before
      anything is read; a failed read, or one that does not give exactly 32
      bytes, fails with `SSZException`. */
  function Decode(field: SszField, reader: HashReader): (r: Result<Hash32, SszError>)
    ensures RawClass(field) != HASH32_CLASS ==> r == Failure(SchemeException)
    ensures RawClass(field) == HASH32_CLASS ==>
              (r.Success? <==> reader(32).Some? && |reader(32).value| == 32)
    ensures RawClass(field) == HASH32_CLASS && r.Failure? ==> r.error == SszException
    ensures r.Success? ==> r.value.bytes == reader(32).value
  {
    match ParseFieldType(field)
    case Failure(e) => Failure(e)
    case Success(size) =>
      match reader(size)
      case None => Failure(SszException)
      case Some(b) => if |b| == 32 then Success(Hash32(b)) else Failure(SszException)
  }

  /** Decoding what was encoded gives the hash back, whenever the width
      encoder leaves a 32-byte value as it is. */
  lemma EncodeThenDecode(h: Hash32, field: SszField, encodeBytes: BytesEncoder, reader: HashReader)
    requires RawClass(field) == HASH32_CLASS
    requires encodeBytes(h.bytes, 32) == h.bytes
    requires reader(32) == Some(Encoding(h.bytes, field, encodeBytes))
    ensures Decode(field, reader) == Success(h)
  {
  }

  /** `repackBytesList`: the byte strings copied, in order, into a new array. */
  method RepackBytesList(list: seq<seq<byte>>) returns (data: array<seq<byte>>)
    ensures fresh(data)
    ensures data[..] == list
  {
    data := new seq<byte>[|list|];
    var i := 0;
    while i < |list|
      invariant 0 <= i <= |list|
      invariant forall k :: 0 <= k < i ==> data[k] == list[k]
    {
      data[i] := list[i];
      i := i + 1;
    }
  }

  /** `HashCodec` as a basic accessor, for wrapping by other accessors. */
  function Accessor(encodeBytes: BytesEncoder): (a: BasicAccessor<seq<byte>, Hash32, HashReader>)
    ensures a.supportedClasses == SupportedClasses() && a.supportedSszTypes == SupportedSszTypes()
    ensures forall f :: a.getSize(f) == 32
  {
    BasicAccessor(SupportedSszTypes(), SupportedClasses(), GetSize,
                  (v, f) => Encoding(v, f, encodeBytes), Decode)
  }
}
