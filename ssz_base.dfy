/** Vocabulary shared by the SSZ codec model: bytes, Java integer ranges,
    result types, the little-endian unsigned integers of the wire format,
    and the output stream that basic accessors write into. */
module SszBase {

  newtype byte = b: int | 0 <= b < 256

  /** The largest Java `int`; no Java byte array is longer than this. */
  const JAVA_INT_MAX: int := 0x7fff_ffff

  /** One more than the largest unsigned 32-bit integer. */
  const UINT32_LIMIT: int := 0x1_0000_0000

  /** `SSZType.VARIABLE_SIZE`: the sentinel for "no fixed length / no bound". */
  const VARIABLE_SIZE: int := -1

  /** Values of Java's `int` and `long`. */
  type JavaInt = x: int | -0x8000_0000 <= x <= 0x7fff_ffff
  type JavaLong = x: int | -0x8000_0000_0000_0000 <= x <= 0x7fff_ffff_ffff_ffff

  /** The contents of a `Bytes32` / `Hash32`. */
  type Bytes32 = s: seq<byte> | |s| == 32 witness seq(32, _ => 0 as byte)

  datatype Option<+T> = None | Some(value: T)

  datatype Result<+T, +E> = Success(value: T) | Failure(error: E)

  datatype Outcome<+E> = Pass | Fail(error: E)

  /** The exceptions the codec layer throws, by kind. */
  datatype SszError =
    | SszException                      // I/O failure while encoding or decoding a value
    | SchemeException                   // the schema cannot be handled (no accessor, unsupported class)
    | SerializeException                // a value violates its declared length or bound
    | UnresolvedVariable(name: string)  // a named external size constant is unknown

  function Pow256(k: nat): (r: nat)
    ensures r > 0
  {
    if k == 0 then 1 else 256 * Pow256(k - 1)
  }

  lemma {:induction false} Pow256Four()
    ensures Pow256(4) == UINT32_LIMIT
  {
    calc {
      Pow256(4);
      256 * Pow256(3);
      256 * (256 * Pow256(2));
      256 * (256 * (256 * Pow256(1)));
      256 * (256 * (256 * (256 * Pow256(0))));
    }
  }

  /** Byte `i` of `n` in base 256, least significant first. */
  function ByteAt(n: nat, i: nat): byte
  {
    if i == 0 then (n % 256) as byte else ByteAt(n / 256, i - 1)
  }

  /** `n` written as `width` unsigned bytes, least significant first. */
  function UnsignedLittleEndian(n: nat, width: nat): (r: seq<byte>)
    requires n < Pow256(width)
    ensures |r| == width
  {
    seq(width, i requires 0 <= i < width => ByteAt(n, i))
  }

  /** The unsigned integer whose little-endian bytes are `s`. */
  function FromLittleEndian(s: seq<byte>): (n: nat)
    ensures n < Pow256(|s|)
  {
    if s == [] then 0 else s[0] as nat + 256 * FromLittleEndian(s[1..])
  }

  /** Dropping the least significant byte of a little-endian encoding. */
  lemma {:induction false} LittleEndianTail(n: nat, width: nat)
    requires 0 < width && n < Pow256(width)
    ensures n / 256 < Pow256(width - 1)
    ensures UnsignedLittleEndian(n, width)[0] == (n % 256) as byte
    ensures UnsignedLittleEndian(n, width)[1..] == UnsignedLittleEndian(n / 256, width - 1)
  {
    var s, t := UnsignedLittleEndian(n, width), UnsignedLittleEndian(n / 256, width - 1);
    forall i | 0 <= i < width - 1
      ensures s[1..][i] == t[i]
    {
      assert s[1..][i] == ByteAt(n, i + 1);
    }
  }

  /** Reading back what was written gives the number. */
  lemma {:induction false} LittleEndianRoundTrip(n: nat, width: nat)
    requires n < Pow256(width)
    ensures FromLittleEndian(UnsignedLittleEndian(n, width)) == n
    decreases width
  {
    if width > 0 {
      LittleEndianTail(n, width);
      LittleEndianRoundTrip(n / 256, width - 1);
    }
  }

  /** Writing what was read gives the bytes: the encoding is onto its width. */
  lemma {:induction false} LittleEndianOfRead(s: seq<byte>)
    ensures UnsignedLittleEndian(FromLittleEndian(s), |s|) == s
  {
    if s != [] {
      var n := FromLittleEndian(s);
      var rest := FromLittleEndian(s[1..]);
      assert n % 256 == s[0] as nat && n / 256 == rest;
      LittleEndianOfRead(s[1..]);
      LittleEndianTail(n, |s|);
      var w := UnsignedLittleEndian(n, |s|);
      assert w == [w[0]] + w[1..];
    }
  }

  /** Concatenation of a list of byte strings in order (`BytesValue.concat`). */
  function Flatten(pieces: seq<seq<byte>>): seq<byte>
  {
    if pieces == [] then [] else Flatten(pieces[..|pieces| - 1]) + pieces[|pieces| - 1]
  }

  lemma {:induction false} FlattenAppend(pieces: seq<seq<byte>>, p: seq<byte>)
    ensures Flatten(pieces + [p]) == Flatten(pieces) + p
  {
    assert (pieces + [p])[..|pieces|] == pieces;
  }

  lemma {:induction false} FlattenConcat(a: seq<seq<byte>>, b: seq<seq<byte>>)
    ensures Flatten(a + b) == Flatten(a) + Flatten(b)
    decreases |b|
  {
    if b == [] {
      assert a + b == a;
    } else {
      var init, last := b[..|b| - 1], b[|b| - 1];
      assert a + b == (a + init) + [last];
      assert b == init + [last];
      FlattenAppend(a + init, last);
      FlattenAppend(init, last);
      FlattenConcat(a, init);
    }
  }

  // Slicing facts about concatenations, kept apart so that each is proved
  // in a small context.

  lemma {:induction false} TakeOfConcat<T>(a: seq<T>, b: seq<T>, k: nat)
    requires k <= |a|
    ensures (a + b)[..k] == a[..k]
  {
  }

  /** A piece that ends a prefix of the second half of `first + second`
      lies in the concatenation at its position within `second` moved on
      past `first`. */
  lemma {:induction false} PieceInConcat<T>(first: seq<T>, second: seq<T>, before: seq<T>, piece: seq<T>, at: nat)
    requires |before + piece| <= |second| && second[..|before + piece|] == before + piece
    requires at == |first| + |before|
    ensures at + |piece| <= |first + second|
    ensures (first + second)[at..at + |piece|] == piece
  {
    assert (first + second)[at..at + |piece|] == second[|before|..|before| + |piece|];
    assert second[|before|..|before| + |piece|] == (before + piece)[|before|..];
  }

  lemma {:induction false} SliceOfConcatLeft<T>(a: seq<T>, b: seq<T>, lo: nat, hi: nat)
    requires lo <= hi <= |a|
    ensures (a + b)[lo..hi] == a[lo..hi]
  {
  }

  /** A piece that ends the prefix `whole[..end]` lies in `whole` from `at`. */
  lemma {:induction false} PieceInPrefix<T>(whole: seq<T>, before: seq<T>, piece: seq<T>, at: nat, end: nat)
    requires end <= |whole| && whole[..end] == before + piece
    requires at == |before| && end == at + |piece|
    ensures whole[at..end] == piece
  {
    assert whole[at..end] == (before + piece)[at..];
  }

  /** A `java.io.OutputStream`: the bytes written so far, and whether every
      write fails with an `IOException`. */
  class OutputStream {
    var data: seq<byte>
    var broken: bool

    constructor (broken: bool)
      ensures data == [] && this.broken == broken
    {
      data := [];
      this.broken := broken;
    }

    method Write(bytes: seq<byte>) returns (ok: bool)
      modifies this
      ensures ok == !old(broken) && broken == old(broken)
      ensures data == if ok then old(data) + bytes else old(data)
    {
      ok := !broken;
      if ok {
        data := data + bytes;
      }
    }
  }
}
