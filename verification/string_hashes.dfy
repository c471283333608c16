/**
 * The `IStringHash` strategies: four ways to turn a string into an unsigned
 * 32-bit hash. A strategy is a value; the two that delegate to the host
 * runtime (the string's own `GetHashCode` and a cryptographic
 * `HashAlgorithm`) carry that host function as a field.
 */
module StringHashes {
  import Text
  import MurmurHash2
  import SuperFastHash

  /** A signed 32-bit integer, what `GetHashCode` returns. */
  newtype int32 = x: int | -0x8000_0000 <= x < 0x8000_0000

  /** An unsigned 32-bit integer, what `IStringHash.Hash` returns. */
  newtype uint32 = x: int | 0 <= x < 0x1_0000_0000

  /**
   * `(UInt32)x`: the same 32 bits read as unsigned, so the non-negative
   * values keep their value and the negative ones move up by 2^32.
   */
  function AsUInt32(x: int32): (r: uint32)
    ensures x >= 0 ==> r as int == x as int
    ensures x < 0 ==> r >= 0x8000_0000 && r as int - x as int == 0x1_0000_0000
  {
    if x < 0 then (x as int + 0x1_0000_0000) as uint32 else x as int as uint32
  }

  /** A 32-bit word as the unsigned integer it stands for. */
  function Unsigned(w: bv32): uint32 {
    w as int as uint32
  }

  /** The reinterpretation loses nothing: distinct signed values stay distinct. */
  lemma AsUInt32Injective(x: int32, y: int32)
    ensures AsUInt32(x) == AsUInt32(y) <==> x == y
  {
  }

  /** The four `IStringHash` implementations. */
  datatype StringHash =
    | /** `StandardHash`: the runtime's `GetHashCode` of the string, reinterpreted as unsigned. */
      StandardHash(getHashCode: string -> int32)
    | /** `MurmurHash2Simple`: MurmurHash2 with the default seed over the UTF-8 bytes. */
      MurmurHash2Simple
    | /** `SuperFastHashSimple`: SuperFastHash over the UTF-8 bytes. */
      SuperFastHashSimple
    | /** `CryptographicHash`: MurmurHash2 with the default seed over the digest of the ASCII bytes. */
      CryptographicHash(computeHash: seq<bv8> -> seq<bv8>)

  /** `IStringHash.Hash`: the hash `strategy` gives the string `s`. */
  function Hash(strategy: StringHash, s: string): (h: uint32)
    ensures (strategy.MurmurHash2Simple? || strategy.SuperFastHashSimple?) && s == [] ==> h == 0
  {
    match strategy
    case StandardHash(getHashCode) => AsUInt32(getHashCode(s))
    case MurmurHash2Simple => Unsigned(MurmurHash2.HashDefault(Text.Utf8Encode(s)))
    case SuperFastHashSimple => Unsigned(SuperFastHash.Hash(Text.Utf8Encode(s)))
    case CryptographicHash(computeHash) => Unsigned(MurmurHash2.HashDefault(computeHash(Text.AsciiEncode(s))))
  }

  /**
   * What a client of `IStringHash` sees of a strategy: a function from
   * strings to unsigned 32-bit hashes, called without knowing which
   * implementation is behind it.
   */
  type HashFunction = string -> uint32

  /** A strategy as a `HashFunction`. */
  function AsHashFunction(strategy: StringHash): HashFunction {
    s => Hash(strategy, s)
  }

  /**
   * `IStringHash.Hash(string)` as each implementing class runs it, with the
   * byte hashes' loops.
   */
  method ComputeHash(strategy: StringHash, s: string) returns (h: uint32)
    ensures h == Hash(strategy, s)
  {
    match strategy
    case StandardHash(getHashCode) =>
      h := AsUInt32(getHashCode(s));
    case MurmurHash2Simple =>
      var w := MurmurHash2.ComputeHash(Text.Utf8Encode(s), MurmurHash2.DefaultSeed);
      h := Unsigned(w);
    case SuperFastHashSimple =>
      var w := SuperFastHash.ComputeHash(Text.Utf8Encode(s));
      h := Unsigned(w);
    case CryptographicHash(computeHash) =>
      var digest := computeHash(Text.AsciiEncode(s));
      var w := MurmurHash2.ComputeHash(digest, MurmurHash2.DefaultSeed);
      h := Unsigned(w);
  }

  /**
   * The ASCII encoding writes '?' for every character outside ASCII, so a
   * cryptographic strategy cannot tell apart two strings that differ only in
   * which non-ASCII characters they hold (nor a non-ASCII character from '?').
   */
  lemma CryptographicIgnoresNonAsciiCharacters(computeHash: seq<bv8> -> seq<bv8>, s: string, t: string)
    requires |s| == |t|
    requires forall i :: 0 <= i < |s| ==>
      s[i] == t[i] || ((s[i] as int) >= 0x80 && (t[i] as int) >= 0x80)
    ensures Hash(CryptographicHash(computeHash), s) == Hash(CryptographicHash(computeHash), t)
  {
    assert Text.AsciiEncode(s) == Text.AsciiEncode(t);
  }

  /**
   * On ASCII strings the UTF-8 and ASCII encodings agree, so a cryptographic
   * strategy whose digest is the identity hashes exactly as `MurmurHash2Simple`.
   */
  lemma CryptographicIdentityIsMurmurOnAscii(s: string)
    requires Text.IsAscii(s)
    ensures Hash(CryptographicHash(b => b), s) == Hash(MurmurHash2Simple, s)
  {
    Text.Utf8OfAscii(s);
  }

  /** The UTF-8 bytes of "hello" are its ASCII codes. */
  lemma HelloBytes()
    ensures Text.Utf8Encode("hello") == [0x68, 0x65, 0x6c, 0x6c, 0x6f]
  {
    var s := "hello";
    assert Text.Utf8Char(s[0]) == [0x68] && Text.Utf8Char(s[1]) == [0x65];
    assert Text.Utf8Char(s[2]) == [0x6c] && Text.Utf8Char(s[4]) == [0x6f];
    assert Text.Utf8Encode(s[4..]) == [0x6f];
    assert Text.Utf8Encode(s[3..]) == [0x6c, 0x6f];
    assert Text.Utf8Encode(s[2..]) == [0x6c, 0x6c, 0x6f];
    assert Text.Utf8Encode(s[1..]) == [0x65, 0x6c, 0x6c, 0x6f];
  }

  /** "hello" hashes to `0x8d0c86bc` under `MurmurHash2Simple`. */
  lemma MurmurHelloVector()
    ensures Hash(MurmurHash2Simple, "hello") == 0x8d0c86bc
  {
    HelloBytes();
    MurmurHash2.HelloVector();
  }

  /** "hello" hashes to `0xb09dc87b` under `SuperFastHashSimple`. */
  lemma SuperFastHelloVector()
    ensures Hash(SuperFastHashSimple, "hello") == 0xb09dc87b
  {
    HelloBytes();
    SuperFastHash.HelloVector();
  }
}
