/**
 * Paul Hsieh's SuperFastHash of a byte sequence, as `SuperFastHashSimple`
 * computes it: `hash` starts at the length, every whole 4-byte block is
 * mixed in as two little-endian 16-bit halves, then the one to three
 * trailing bytes, then a six-step avalanche. All arithmetic wraps modulo
 * 2^32.
 *
 * `Hash` and its helpers are the block-by-block reference definition;
 * `ComputeHash` is the `while` loop and `switch` of
 * `SuperFastHashSimple.Hash(Byte[])`, proved equal to it.
 */
module SuperFastHash {
  import opened Words

  /**
   * `(UInt32)(hi << 11)`: the 16-bit value is promoted to a signed 32-bit
   * int before the shift. The result stays below 2^27, so the signed shift
   * never overflows and the cast to unsigned changes nothing.
   */
  function ShiftedHigh(hi: bv16): (r: bv32)
    ensures r < 0x800_0000
  {
    (hi as bv32) << 11
  }

  /**
   * One iteration of the block loop on the halves `lo` and `hi`:
   * `hash += lo; tmp = (hi << 11) ^ hash; hash = (hash << 16) ^ tmp; hash += hash >> 11`.
   */
  function Round(hash: bv32, lo: bv16, hi: bv16): bv32 {
    var h1 := hash + (lo as bv32);
    var tmp := ShiftedHigh(hi) ^ h1;
    AddShr((h1 << 16) ^ tmp, 11)
  }

  /**
   * `hash` after the first `n` blocks of `data`, starting from `hash0`: a
   * left fold of `Round` over the blocks, each read as two little-endian
   * 16-bit halves.
   */
  function MixBlocks(hash0: bv32, data: seq<bv8>, n: nat): bv32
    requires 4 * n <= |data|
  {
    if n == 0 then hash0
    else
      var i := 4 * (n - 1);
      Round(MixBlocks(hash0, data, n - 1), ReadU16(data, i), ReadU16(data, i + 2))
  }

  /** The tail switch: mix in the one to three bytes left at `data[i..]`, or nothing. */
  function MixTail(hash: bv32, data: seq<bv8>, i: nat): bv32
    requires i <= |data| < i + 4
  {
    var rest := |data| - i;
    if rest == 3 then
      var h := XorShl(hash + (ReadU16(data, i) as bv32), 16);
      AddShr(h ^ ((data[i + 2] as bv32) << 18), 11)
    else if rest == 2 then
      AddShr(XorShl(hash + (ReadU16(data, i) as bv32), 11), 17)
    else if rest == 1 then
      AddShr(XorShl(hash + (data[i] as bv32), 10), 1)
    else
      hash
  }

  /**
   * The final avalanche:
   * `hash ^= hash << 3; hash += hash >> 5; hash ^= hash << 4; hash += hash >> 17; hash ^= hash << 25; hash += hash >> 6`.
   */
  function Avalanche(hash: bv32): bv32 {
    AddShr(XorShl(AddShr(XorShl(AddShr(XorShl(hash, 3), 5), 4), 17), 25), 6)
  }

  /**
   * The SuperFastHash of `data`: zero for the empty sequence, otherwise the
   * fold of all whole blocks from the length, the tail and the avalanche.
   */
  function Hash(data: seq<bv8>): (h: bv32)
    ensures |data| == 0 ==> h == 0
  {
    if |data| == 0 then 0
    else
      var blocks := |data| / 4;
      Avalanche(MixTail(MixBlocks(LengthWord(|data|), data, blocks), data, 4 * blocks))
  }

  /**
   * The loop and `switch` of `SuperFastHashSimple.Hash(Byte[])`.
   * `remainingBytes` and `numberOfLoops` are the length modulo and divided by
   * four (`dataLength & 3` and `dataLength >> 2`, see
   * `Words.MaskAndShiftDivideByFour`); `currentIndex` is four times the
   * number of finished iterations, so both 16-bit reads of every block and
   * every tail read are in bounds.
   */
  method ComputeHash(data: seq<bv8>) returns (hash: bv32)
    ensures hash == Hash(data)
  {
    var dataLength := |data|;
    if dataLength == 0 {
      return 0;
    }
    hash := LengthWord(dataLength);
    var remainingBytes := dataLength % 4;
    var numberOfLoops := dataLength / 4;
    var currentIndex := 0;
    ghost var iterations := 0;
    while numberOfLoops > 0
      invariant 0 <= numberOfLoops && iterations + numberOfLoops == dataLength / 4
      invariant currentIndex == 4 * iterations
      invariant hash == MixBlocks(LengthWord(dataLength), data, iterations)
    {
      hash := Round(hash, ReadU16(data, currentIndex), ReadU16(data, currentIndex + 2));
      currentIndex := currentIndex + 4;
      numberOfLoops := numberOfLoops - 1;
      iterations := iterations + 1;
    }
    assert currentIndex + remainingBytes == dataLength;
    hash := MixTail(hash, data, currentIndex);
    hash := Avalanche(hash);
  }

  /** The ASCII bytes of "hello" hash to `0xb09dc87b`. */
  lemma HelloVector()
    ensures Hash([0x68, 0x65, 0x6c, 0x6c, 0x6f]) == 0xb09dc87b
  {
    var data: seq<bv8> := [0x68, 0x65, 0x6c, 0x6c, 0x6f];
    assert LengthWord(5) == 5;
    assert ReadU16(data, 0) == 0x6568 && ReadU16(data, 2) == 0x6c6c;
    assert Round(5, 0x6568, 0x6c6c) == 0x661ac72d;
    assert MixBlocks(5, data, 1) == 0x661ac72d;
    assert MixTail(0x661ac72d, data, 4) == 0x1387136a;
    assert Avalanche(0x1387136a) == 0xb09dc87b;
  }
}
