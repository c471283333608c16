/**
 * The 32-bit word operations both hashes are built from: little-endian reads
 * of 16- and 32-bit words out of a byte sequence (the meaning the hashes give
 * to `BitConverter.ToUInt16` and `BitConverter.ToUInt32` on a little-endian
 * host), and the compound shift steps `h ^= h >> n`,
 * `h ^= h << n` and `h += h >> n`, all wrapping modulo 2^32.
 */
module Words {

  /**
   * A byte array's length as an unsigned 32-bit word, `(UInt32)length`:
   * counting up from zero in 32-bit arithmetic, that is, the length modulo 2^32.
   * Its two low bits are the length's remainder modulo four.
   */
  function LengthWord(n: nat): (w: bv32)
    ensures w & 3 == [0, 1, 2, 3][n % 4]
  {
    if n == 0 then 0 else LengthWord(n - 1) + 1
  }

  /** `h ^= h >> n`. */
  function XorShr(h: bv32, n: bv32): bv32
    requires n < 32
  {
    h ^ (h >> n)
  }

  /** `h ^= h << n`. */
  function XorShl(h: bv32, n: bv32): bv32
    requires n < 32
  {
    h ^ (h << n)
  }

  /** `h += h >> n`, wrapping modulo 2^32. */
  function AddShr(h: bv32, n: bv32): bv32
    requires n < 32
  {
    h + (h >> n)
  }

  /** The 16-bit word stored little-endian at `data[i..i+2]`. */
  function ReadU16(data: seq<bv8>, i: nat): (w: bv16)
    requires i + 2 <= |data|
  {
    (data[i] as bv16) | ((data[i + 1] as bv16) << 8)
  }

  /** The 32-bit word stored little-endian at `data[i..i+4]`. */
  function ReadU32(data: seq<bv8>, i: nat): (w: bv32)
    requires i + 4 <= |data|
  {
    (data[i] as bv32)
    | ((data[i + 1] as bv32) << 8)
    | ((data[i + 2] as bv32) << 16)
    | ((data[i + 3] as bv32) << 24)
  }

  /**
   * The result of folding `step` over the first `n` little-endian 32-bit
   * words of `data`, in order, starting from `h0`: what a loop that consumes
   * `data` four bytes at a time computes.
   */
  function FoldWords(step: (bv32, bv32) -> bv32, h0: bv32, data: seq<bv8>, n: nat): bv32
    requires 4 * n <= |data|
  {
    if n == 0 then h0 else step(FoldWords(step, h0, data, n - 1), ReadU32(data, 4 * (n - 1)))
  }

  /** A fold over `n` words reads nothing past them: the bytes after `data[..4 * n]` do not affect it. */
  lemma {:induction false} FoldWordsReadsOnlyItsWords(
    step: (bv32, bv32) -> bv32, h0: bv32, data: seq<bv8>, more: seq<bv8>, n: nat)
    requires 4 * n <= |data|
    ensures FoldWords(step, h0, data + more, n) == FoldWords(step, h0, data, n)
  {
    if n > 0 {
      FoldWordsReadsOnlyItsWords(step, h0, data, more, n - 1);
      var i := 4 * (n - 1);
      assert (data + more)[i] == data[i] && (data + more)[i + 1] == data[i + 1];
      assert (data + more)[i + 2] == data[i + 2] && (data + more)[i + 3] == data[i + 3];
    }
  }

  /** `k ^= k >> 24` loses nothing: applying it twice gives `k` back. */
  lemma XorShr24UndoesItself(k: bv32)
    ensures XorShr(XorShr(k, 24), 24) == k
  {
  }

  /** `h ^= h << n` loses nothing when `n` is at least 16: applying it twice gives `h` back. */
  lemma XorShlUndoesItself(h: bv32, n: bv32)
    requires 16 <= n < 32
    ensures XorShl(XorShl(h, n), n) == h
  {
    assert (h ^ (h << n)) << n == h << n;
  }

  /** On a 32-bit word, `x & 3` is the remainder and `x >> 2` the quotient of division by four. */
  lemma MaskAndShiftDivideByFour(x: bv32)
    ensures x & 3 == x % 4 && x >> 2 == x / 4
  {
  }
}
