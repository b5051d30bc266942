/**
 * Java's 64-bit `long` and the way a `java.nio.ByteBuffer` stores one: `putLong` writes the
 * two's-complement value as 8 bytes, most significant first (a buffer's default byte order is
 * big-endian), and `getLong` reads those 8 bytes back.
 */
module LongCodec {

  type Byte = b: int | 0 <= b < 256

  const LONG_MIN: int := -0x8000_0000_0000_0000
  const LONG_MAX: int := 0x7FFF_FFFF_FFFF_FFFF
  const TWO_TO_64: int := 0x1_0000_0000_0000_0000

  /** Java `long`. */
  type Long = x: int | LONG_MIN <= x <= LONG_MAX

  /** Number of bytes in a `long`. */
  const LONG_BYTES: nat := 8

  function Pow256(n: nat): (r: nat)
    ensures r > 0
  {
    if n == 0 then 1 else 256 * Pow256(n - 1)
  }

  /** The `n` low-order bytes of `u`, most significant first. */
  function ToBigEndian(u: nat, n: nat): (bs: seq<Byte>)
    ensures |bs| == n
  {
    if n == 0 then [] else ToBigEndian(u / 256, n - 1) + [u % 256]
  }

  /** The unsigned number whose big-endian bytes are `bs`; it always fits in `|bs|` bytes. */
  function FromBigEndian(bs: seq<Byte>): (u: nat)
    ensures u < Pow256(|bs|)
  {
    if bs == [] then 0
    else
      var prefix := bs[..|bs| - 1];
      var high := FromBigEndian(prefix);
      assert high * 256 <= (Pow256(|prefix|) - 1) * 256;
      high * 256 + bs[|bs| - 1]
  }

  lemma {:induction false} FromToBigEndian(u: nat, n: nat)
    requires u < Pow256(n)
    ensures FromBigEndian(ToBigEndian(u, n)) == u
  {
    if n > 0 {
      var bs := ToBigEndian(u, n);
      assert bs[..n - 1] == ToBigEndian(u / 256, n - 1);
      FromToBigEndian(u / 256, n - 1);
    }
  }

  lemma {:induction false} ToFromBigEndian(bs: seq<Byte>)
    ensures ToBigEndian(FromBigEndian(bs), |bs|) == bs
  {
    if bs != [] {
      var n := |bs|;
      var prefix := bs[..n - 1];
      var u := FromBigEndian(bs);
      assert u / 256 == FromBigEndian(prefix) && u % 256 == bs[n - 1];
      ToFromBigEndian(prefix);
    }
  }

  /** The two's-complement bit pattern of `v`, read as an unsigned number. */
  function Unsigned(v: Long): (u: nat)
    ensures u < TWO_TO_64
    ensures (u < 0x8000_0000_0000_0000) == (v >= 0)
  {
    if v < 0 then v + TWO_TO_64 else v
  }

  /** The `long` whose two's-complement bit pattern is the unsigned number `u`. */
  function Signed(u: nat): (v: Long)
    requires u < TWO_TO_64
    ensures Unsigned(v) == u
  {
    if u <= LONG_MAX then u else u - TWO_TO_64
  }

  /** `ByteBuffer.putLong`: the 8 big-endian bytes of `v`. */
  function EncodeLong(v: Long): (bs: seq<Byte>)
    ensures |bs| == LONG_BYTES
  {
    ToBigEndian(Unsigned(v), LONG_BYTES)
  }

  /** `ByteBuffer.getLong`: the `long` held in 8 big-endian bytes. */
  function DecodeLong(bs: seq<Byte>): Long
    requires |bs| == LONG_BYTES
  {
    assert Pow256(LONG_BYTES) == TWO_TO_64;
    Signed(FromBigEndian(bs))
  }

  /** Reading back what `putLong` wrote gives the value that was written. */
  lemma DecodeEncode(v: Long)
    ensures DecodeLong(EncodeLong(v)) == v
  {
    assert Pow256(LONG_BYTES) == TWO_TO_64;
    FromToBigEndian(Unsigned(v), LONG_BYTES);
  }

  /** Writing back what `getLong` read leaves the bytes as they were. */
  lemma EncodeDecode(bs: seq<Byte>)
    requires |bs| == LONG_BYTES
    ensures EncodeLong(DecodeLong(bs)) == bs
  {
    assert Pow256(LONG_BYTES) == TWO_TO_64;
    ToFromBigEndian(bs);
  }

  /** Eight zero bytes (a freshly allocated buffer) read as the `long` 0, and nothing else does. */
  lemma DecodeZero(bs: seq<Byte>)
    requires |bs| == LONG_BYTES
    ensures DecodeLong(bs) == 0 <==> bs == seq(LONG_BYTES, _ => 0)
  {
    EncodeDecode(bs);
    assert EncodeLong(0) == seq(LONG_BYTES, _ => 0);
    DecodeEncode(0);
  }

  /** `ByteBuffer.getLong(index)` on a buffer modelled as an array of bytes. */
  function GetLong(buf: array<Byte>, index: nat): (v: Long)
    reads buf
    requires index + LONG_BYTES <= buf.Length
    ensures EncodeLong(v) == buf[index..index + LONG_BYTES]
  {
    EncodeDecode(buf[index..index + LONG_BYTES]);
    DecodeLong(buf[index..index + LONG_BYTES])
  }

  /**
   * `ByteBuffer.putLong(index, v)`: only the 8 bytes from `index` change, they then read back as
   * `v`, and every 8-byte window that does not overlap them reads as before.
   */
  method PutLong(buf: array<Byte>, index: nat, v: Long)
    requires index + LONG_BYTES <= buf.Length
    modifies buf
    ensures buf[..] == old(buf[..index]) + EncodeLong(v) + old(buf[index + LONG_BYTES..])
    ensures GetLong(buf, index) == v
    ensures forall j: nat {:trigger GetLong(buf, j)} :: j + LONG_BYTES <= buf.Length && (j + LONG_BYTES <= index || index + LONG_BYTES <= j)
              ==> GetLong(buf, j) == old(GetLong(buf, j))
  {
    var bytes := EncodeLong(v);
    for i := 0 to LONG_BYTES
      invariant forall k :: 0 <= k < buf.Length && !(index <= k < index + i) ==> buf[k] == old(buf[k])
      invariant forall k :: 0 <= k < i ==> buf[index + k] == bytes[k]
    {
      buf[index + i] := bytes[i];
    }
    assert buf[..] == old(buf[..index]) + bytes + old(buf[index + LONG_BYTES..]);
    assert buf[index..index + LONG_BYTES] == bytes;
    DecodeEncode(v);
    forall j: nat | j + LONG_BYTES <= buf.Length && (j + LONG_BYTES <= index || index + LONG_BYTES <= j)
      ensures GetLong(buf, j) == old(GetLong(buf, j))
    {
      assert buf[j..j + LONG_BYTES] == old(buf[j..j + LONG_BYTES]);
    }
  }
}
