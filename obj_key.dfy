/** The key of the converter's vertex-deduplication table: the three 1-based
    OBJ indices of a face corner. The table hashes and compares keys as their
    raw 24 bytes (FNV-1a and `memcmp`), so both are modelled on the byte image
    of the struct: three little-endian 64-bit words, in field order. */
module ObjKey {

  /** `size_t` on 64-bit Windows. */
  type Word = x: int | 0 <= x < 0x1_0000_0000_0000_0000

  /** `VertexIndices`, fields in declaration order (normal before texcoord). */
  datatype Key = Key(position: Word, normal: Word, texcoord: Word)

  function Pow256(n: nat): (p: nat)
    ensures p > 0
  {
    if n == 0 then 1 else 256 * Pow256(n - 1)
  }

  /** The `width` low bytes of `x`, least significant first. */
  function LittleEndian(x: nat, width: nat): (bs: seq<bv8>)
    ensures |bs| == width
  {
    if width == 0 then [] else [Byte(x % 256)] + LittleEndian(x / 256, width - 1)
  }

  /** The byte whose value is `n`, built by counting up so that its value
      follows without a conversion from an integer to a bit-vector. */
  function Byte(n: nat): (b: bv8)
    requires n < 256
    ensures b as int == n
  {
    if n == 0 then 0 else Byte(n - 1) + 1
  }

  /** The number whose little-endian bytes are `bs`. */
  function FromLittleEndian(bs: seq<bv8>): nat {
    if bs == [] then 0 else bs[0] as nat + 256 * FromLittleEndian(bs[1..])
  }

  /** Reading back the bytes of a number that fits gives the number. */
  lemma {:induction false} LittleEndianRoundTrip(x: nat, width: nat)
    requires x < Pow256(width)
    ensures FromLittleEndian(LittleEndian(x, width)) == x
  {
    if width > 0 {
      var bs := LittleEndian(x, width);
      QuotientBelow(x, Pow256(width - 1));
      LittleEndianRoundTrip(x / 256, width - 1);
      assert bs[1..] == LittleEndian(x / 256, width - 1);
      assert bs[0] as nat == x % 256;
      assert FromLittleEndian(bs) == x % 256 + 256 * (x / 256);
    }
  }

  lemma QuotientBelow(x: nat, p: nat)
    requires x < 256 * p
    ensures x / 256 < p
  {
  }


  /** The 24 bytes of a key as they lie in memory. */
  function KeyBytes(k: Key): (bs: seq<bv8>)
    ensures |bs| == 24
  {
    LittleEndian(k.position, 8) + LittleEndian(k.normal, 8) + LittleEndian(k.texcoord, 8)
  }

  /** Each field can be read back from its 8 bytes of the image. */
  lemma KeyBytesDecode(k: Key)
    ensures FromLittleEndian(KeyBytes(k)[..8]) == k.position
    ensures FromLittleEndian(KeyBytes(k)[8..16]) == k.normal
    ensures FromLittleEndian(KeyBytes(k)[16..]) == k.texcoord
  {
    assert Pow256(8) == 0x1_0000_0000_0000_0000;
    var bs := KeyBytes(k);
    assert bs[..8] == LittleEndian(k.position, 8);
    assert bs[8..16] == LittleEndian(k.normal, 8);
    assert bs[16..] == LittleEndian(k.texcoord, 8);
    LittleEndianRoundTrip(k.position, 8);
    LittleEndianRoundTrip(k.normal, 8);
    LittleEndianRoundTrip(k.texcoord, 8);
  }

  /** `operator==` on keys: `memcmp` of the two images. Comparing bytes is
      comparing keys, since the image has no padding. */
  function KeysEqual(a: Key, b: Key): (r: bool)
    ensures r <==> a == b
  {
    KeyBytesDecode(a);
    KeyBytesDecode(b);
    KeyBytes(a) == KeyBytes(b)
  }

  const FnvOffsetBasis: bv64 := 14695981039346656037
  const FnvPrime: bv64 := 1099511628211

  /** `(size_t)data[i]` with `char` signed: sign extension, so the low byte
      is the byte itself and the 56 bits above it copy its top bit. */
  function Widen(b: bv8): (w: bv64)
    ensures w & 0xFF == b as bv64
    ensures w >> 8 == if b & 0x80 == 0 then 0 else 0xFF_FFFF_FFFF_FFFF
  {
    if b < 0x80 then b as bv64 else (b as bv64) | 0xFFFF_FFFF_FFFF_FF00
  }

  /** One FNV-1a round: mix the byte in, then multiply by the prime. */
  function FnvStep(hash: bv64, b: bv8): bv64 {
    (hash ^ Widen(b)) * FnvPrime
  }

  /** 64-bit FNV-1a over a byte string. */
  function Fnv(bs: seq<bv8>): bv64 {
    if bs == [] then FnvOffsetBasis else FnvStep(Fnv(bs[..|bs| - 1]), bs[|bs| - 1])
  }

  /** The loop of `std::hash<VertexIndices>`: FNV-1a over a byte string, one
      byte at a time (`HashKey` runs it over a key's image). */
  method Hash(data: seq<bv8>) returns (hash: bv64)
    ensures hash == Fnv(data)
  {
    hash := FnvOffsetBasis;
    for i := 0 to |data|
      invariant hash == Fnv(data[..i])
    {
      assert data[..i + 1][..i] == data[..i];
      hash := FnvStep(hash, data[i]);
    }
    assert data[..|data|] == data;
  }

  /** `std::hash<VertexIndices>` on a key: the FNV-1a loop over its 24-byte image. */
  method HashKey(k: Key) returns (hash: bv64)
    ensures hash == Fnv(KeyBytes(k))
  {
    hash := Hash(KeyBytes(k));
  }

  /** Keys that `operator==` calls equal hash alike, as the table needs. */
  lemma HashRespectsKeys(a: Key, b: Key)
    requires KeysEqual(a, b)
    ensures Fnv(KeyBytes(a)) == Fnv(KeyBytes(b))
  {
  }
}
