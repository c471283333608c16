/**
 * The 32-bit MurmurHash2 of a byte sequence, as `MurmurHash2Simple` computes
 * it: `h` starts at `seed ^ length`, every whole 4-byte block is mixed in,
 * then the one to three trailing bytes, then a final avalanche. All
 * arithmetic wraps modulo 2^32, which `bv32` does by itself.
 *
 * `Hash` and its helpers are the block-by-block reference definition;
 * `ComputeHash` is the `while` loop and `switch` of
 * `MurmurHash2Simple.Hash(Byte[], UInt32)`, proved equal to it.
 */
module MurmurHash2 {
  import opened Words

  /** The multiplier `m`. */
  const M: bv32 := 0x5bd1e995
  /** The shift `r`. */
  const R: bv32 := 24
  /** The seed the one-argument byte-array overload passes. */
  const DefaultSeed: bv32 := 0xc58f1a7b

  /** `x *= m`, wrapping modulo 2^32. */
  function MulM(x: bv32): bv32 {
    x * M
  }

  /** The mixing of one block word `k`: `k *= m; k ^= k >> r; k *= m`. */
  function MixWord(k: bv32): bv32 {
    MulM(XorShr(MulM(k), R))
  }

  /** One iteration of the block loop: mix the block word `k`, then `h *= m; h ^= k`. */
  function MixBlock(h: bv32, k: bv32): bv32 {
    MulM(h) ^ MixWord(k)
  }

  /** The XORs of the tail switch: the one to three bytes left at `data[i..]`, before `h *= m`. */
  function TailXor(h: bv32, data: seq<bv8>, i: nat): bv32
    requires i < |data| < i + 4
  {
    var rest := |data| - i;
    if rest == 3 then
      (h ^ (ReadU16(data, i) as bv32)) ^ ((data[i + 2] as bv32) << 16)
    else if rest == 2 then
      h ^ (ReadU16(data, i) as bv32)
    else
      h ^ (data[i] as bv32)
  }

  /** The little-endian value of a tail of one to three bytes. */
  function TailValue(t: seq<bv8>): bv32
    requires 1 <= |t| <= 3
  {
    if |t| == 1 then t[0] as bv32
    else if |t| == 2 then (t[0] as bv32) | ((t[1] as bv32) << 8)
    else (t[0] as bv32) | ((t[1] as bv32) << 8) | ((t[2] as bv32) << 16)
  }

  /**
   * Whatever the number of trailing bytes, the tail switch XORs their
   * little-endian value into `h`: three bytes as a 24-bit value, two as a
   * 16-bit value, one as itself.
   */
  lemma TailXorIsLittleEndianValue(h: bv32, data: seq<bv8>, i: nat)
    requires i < |data| < i + 4
    ensures TailXor(h, data, i) == h ^ TailValue(data[i..])
  {
    var t := data[i..];
    assert t[0] == data[i];
    if |t| >= 2 {
      assert t[1] == data[i + 1];
    }
    if |t| == 3 {
      assert t[2] == data[i + 2];
    }
  }

  /**
   * The tail switch: with one to three bytes left, their little-endian value
   * is XORed into `h`, which is then multiplied by `m`; with none, `h` is kept.
   */
  function MixTail(h: bv32, data: seq<bv8>, i: nat): (r: bv32)
    requires i <= |data| < i + 4
    ensures i < |data| ==> r == MulM(h ^ TailValue(data[i..]))
  {
    if i == |data| then h
    else
      TailXorIsLittleEndianValue(h, data, i);
      MulM(TailXor(h, data, i))
  }

  /** The final avalanche: `h ^= h >> 13; h *= m; h ^= h >> 15`. */
  function Finalize(h: bv32): bv32 {
    XorShr(MulM(XorShr(h, 13)), 15)
  }

  /**
   * The MurmurHash2 of `data` with `seed`: zero for the empty sequence,
   * otherwise the fold of all whole blocks from `seed ^ length`, the tail
   * and the avalanche.
   */
  function Hash(data: seq<bv8>, seed: bv32): (h: bv32)
    ensures |data| == 0 ==> h == 0
  {
    if |data| == 0 then 0
    else
      var blocks := |data| / 4;
      Finalize(MixTail(FoldWords(MixBlock, seed ^ LengthWord(|data|), data, blocks), data, 4 * blocks))
  }

  /** The public byte-array overload: `Hash` with the fixed seed `0xc58f1a7b`. */
  function HashDefault(data: seq<bv8>): (h: bv32)
    ensures |data| == 0 ==> h == 0
  {
    Hash(data, DefaultSeed)
  }

  /**
   * The block loop reads whole blocks only: the bytes after the last whole
   * block reach the hash through the tail switch alone.
   */
  lemma BlocksIgnoreTail(h0: bv32, data: seq<bv8>)
    ensures FoldWords(MixBlock, h0, data, |data| / 4)
         == FoldWords(MixBlock, h0, data[..4 * (|data| / 4)], |data| / 4)
  {
    var n := |data| / 4;
    assert data == data[..4 * n] + data[4 * n..];
    FoldWordsReadsOnlyItsWords(MixBlock, h0, data[..4 * n], data[4 * n..], n);
  }

  /**
   * The loop and `switch` of `MurmurHash2Simple.Hash(Byte[], UInt32)`.
   * `currentIndex` and `length` move in steps of four and always add up to
   * the input length; every block read is in bounds and the loop body runs
   * exactly `|data| / 4` times, leaving `|data| % 4` bytes.
   */
  method ComputeHash(data: seq<bv8>, seed: bv32) returns (h: bv32)
    ensures h == Hash(data, seed)
  {
    var length := |data|;
    if length == 0 {
      return 0;
    }
    h := seed ^ LengthWord(length);
    ghost var h0 := h;
    var currentIndex := 0;
    ghost var blocks := 0;
    while length >= 4
      invariant 0 <= length && currentIndex + length == |data|
      invariant currentIndex == 4 * blocks
      invariant h == FoldWords(MixBlock, h0, data, blocks)
    {
      h := MixBlock(h, ReadU32(data, currentIndex));
      currentIndex := currentIndex + 4;
      length := length - 4;
      blocks := blocks + 1;
    }
    assert blocks == |data| / 4 && length == |data| % 4;
    h := MixTail(h, data, currentIndex);
    h := Finalize(h);
  }

  /** The ASCII bytes of "hello" hash, with the default seed, to `0x8d0c86bc`. */
  lemma HelloVector()
    ensures HashDefault([0x68, 0x65, 0x6c, 0x6c, 0x6f]) == 0x8d0c86bc
  {
    var data: seq<bv8> := [0x68, 0x65, 0x6c, 0x6c, 0x6f];
    var h0 := DefaultSeed ^ LengthWord(5);
    assert h0 == 0xc58f1a7e;
    assert ReadU32(data, 0) == 0x6c6c6568;
    assert MixWord(0x6c6c6568) == 0x72948d91;
    assert FoldWords(MixBlock, h0, data, 1) == 0xd4d194c7;
    assert MixTail(0xd4d194c7, data, 4) == 0xb3706dc8;
    assert Finalize(0xb3706dc8) == 0x8d0c86bc;
  }
}
