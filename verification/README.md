# Bloom filter with MurmurHash2 and SuperFastHash, in Dafny

This project models `sf-2013-03-18-bloom-filter/bloom.cs`, a Bloom filter over
strings. The filter is a fixed-length bit table plus an ordered list of string
hash strategies (`IStringHash`):

- `Add` sets, for every strategy, the bit at the string's hash modulo the table length.
- `Lookup` reports whether all those bits are set. It stops at the first clear one.
- `Occupancy` gives the fraction of set bits.

Two of the strategies are full 32-bit hash algorithms over the UTF-8 bytes of the
string: MurmurHash2 (`MurmurHash2Simple`) and Paul Hsieh's SuperFastHash
(`SuperFastHashSimple`). The other two delegate to the host runtime. They are the
string's own `GetHashCode` (`StandardHash`) and a cryptographic digest of the ASCII
bytes, fed through MurmurHash2 (`CryptographicHash`).

Modules. The first two model the .NET library calls the hashes rely on
(`BitConverter` and `System.Text.Encoding`); the others model the classes of
`bloom.cs`:

- `Words`: the 32-bit word operations both hashes are built from:
  - little-endian `ToUInt16`/`ToUInt32` reads;
  - the compound shift steps (`h ^= h >> n`, `h ^= h << n`, `h += h >> n`);
  - a generic fold over 4-byte blocks.
- `Text`: the UTF-8 and ASCII encodings the strategies apply to strings.
- `MurmurHash2` and `SuperFastHash`: each hash has two parts:
  - a block-by-block reference definition (`Hash`);
  - the `while` loop and `switch` of the C# `Hash(Byte[])` (`ComputeHash`), proved equal to it.

  Arithmetic is on `bv32`, so it wraps modulo 2^32 just as C# `uint` does.
- `StringHashes`: the four `IStringHash` implementations as a datatype.
  - `Hash` is the interface method.
  - `ComputeHash` runs the verified loops.
  - A strategy becomes a `HashFunction` (`string -> uint32`), the only view of it the filter has.
- `Bloom`: the filter, in two layers:
  - a specification on values:
    - the positions a string selects;
    - the table after a sequence of adds;
    - the answer of a lookup;
    - the number of set bits;
  - the class `BloomFilter`, which keeps the bits in an `array<bool>` updated in place.

  Its ghost field `added` records the strings added so far. `Valid()` ties the array to
  the specification. On top of that, `Lookup` is proved never to miss an added string.

The C# constructor accepts a table of size zero. With at least one strategy, the
first `% table.Length` in `Add` or `Lookup` then throws `DivideByZeroException`.
The model keeps that behaviour as the `DivideByZero` outcome rather than forbidding
size zero. The constructor also accepts an empty strategy list. The filter then
finds every string, and the model says so (`Bloom.NoStrategiesFindsEverything`).

## Model

| member | source | states |
|---|---|---|
| `Words.FoldWordsReadsOnlyItsWords` | sf-2013-03-18-bloom-filter/bloom.cs:42-54 | a fold over the first `n` 4-byte blocks depends on no byte past them, so the block loop reads only whole blocks |
| `Words.LengthWord` | sf-2013-03-18-bloom-filter/bloom.cs:41 | `(UInt32)length`, counted up in 32-bit arithmetic, keeps the length's remainder modulo four in its two low bits |
| `Words.XorShr24UndoesItself` | sf-2013-03-18-bloom-filter/bloom.cs:47 | a fact about the step `k ^= k >> r` with `r = 24`, stated on its own and used by no other proof: applying it again undoes it, so it loses no bits of `k` |
| `Words.XorShlUndoesItself` | sf-2013-03-18-bloom-filter/bloom.cs:114 | a fact about the steps `hash ^= hash << n` with `n` of 16 or more (16 here, 25 at line 135), stated on its own and used by no other proof: applying one again undoes it |
| `Words.MaskAndShiftDivideByFour` | sf-2013-03-18-bloom-filter/bloom.cs:98-99 | a fact about these two lines, stated on its own and used by no other proof: on a 32-bit word, `& 3` is the remainder and `>> 2` the quotient of division by four, as `ComputeHash` computes them |
| `Text.Utf8Char` | sf-2013-03-18-bloom-filter/bloom.cs:26 | the UTF-8 form of one character takes 1 to 4 bytes. It takes exactly one byte, the character's code, when the character is ASCII |
| `Text.Utf8Encode` | sf-2013-03-18-bloom-filter/bloom.cs:26 | the UTF-8 bytes of a string number between its length and four times its length |
| `Text.AsciiEncode` | sf-2013-03-18-bloom-filter/bloom.cs:154 | ASCII encoding writes one byte per character: the code for an ASCII character, `'?'` for any other |
| `Text.Utf8OfAscii` | sf-2013-03-18-bloom-filter/bloom.cs:26 | on an ASCII string, UTF-8 and ASCII encoding produce the same bytes |
| `Text.Utf8LengthIsAsciiLengthOnlyForAscii` | sf-2013-03-18-bloom-filter/bloom.cs:26 | UTF-8 writes exactly one byte per character if and only if the string is ASCII |
| `MurmurHash2.TailXorIsLittleEndianValue` | sf-2013-03-18-bloom-filter/bloom.cs:55-72 | the tail switch XORs the one to three trailing bytes into `h` as their little-endian value |
| `MurmurHash2.MixTail` | sf-2013-03-18-bloom-filter/bloom.cs:55-72 | with one to three bytes left, `h` becomes `(h ^ v) * m`, where `v` is the little-endian value of those bytes |
| `MurmurHash2.BlocksIgnoreTail` | sf-2013-03-18-bloom-filter/bloom.cs:43-54 | the block loop's result depends only on the whole 4-byte blocks; the trailing bytes reach the hash through the switch alone |
| `MurmurHash2.HashDefault` | sf-2013-03-18-bloom-filter/bloom.cs:29-32 | the public overload with the fixed seed `0xc58f1a7b` hashes an empty array to 0 |
| `MurmurHash2.Hash` | sf-2013-03-18-bloom-filter/bloom.cs:38-40 | a zero-length input hashes to 0, whatever the seed |
| `MurmurHash2.ComputeHash` | sf-2013-03-18-bloom-filter/bloom.cs:36-82 | the loop computes the block-by-block definition: <ul><li>`h` starts at `seed ^ length`;</li><li>`currentIndex + length` stays the input length;</li><li>every 4-byte read is in bounds;</li><li>the loop runs `n / 4` times, leaving `n % 4` tail bytes;</li><li>then the tail switch and the avalanche follow</li></ul> |
| `MurmurHash2.HelloVector` | sf-2013-03-18-bloom-filter/bloom.cs:29-32 | with the default seed `0xc58f1a7b`, the bytes of "hello" hash to `0x8d0c86bc` |
| `SuperFastHash.ShiftedHigh` | sf-2013-03-18-bloom-filter/bloom.cs:104 | a 16-bit half shifted left by 11 stays below 2^27, so the signed `int` shift cannot overflow |
| `SuperFastHash.Hash` | sf-2013-03-18-bloom-filter/bloom.cs:94-96 | a zero-length input hashes to 0 |
| `SuperFastHash.ComputeHash` | sf-2013-03-18-bloom-filter/bloom.cs:92-139 | the loop computes the block-by-block definition: <ul><li>`hash` starts at the length;</li><li>`remainingBytes` is `n % 4` and `numberOfLoops` is `n / 4`;</li><li>`currentIndex` is four times the finished iterations;</li><li>all 16-bit and byte reads are in bounds;</li><li>then the tail switch and the avalanche follow</li></ul> |
| `SuperFastHash.HelloVector` | sf-2013-03-18-bloom-filter/bloom.cs:92-139 | the bytes of "hello" hash to `0xb09dc87b` |
| `StringHashes.AsUInt32` | sf-2013-03-18-bloom-filter/bloom.cs:17 | `(UInt32)` of an `Int32` keeps non-negative values and adds 2^32 to negative ones |
| `StringHashes.AsUInt32Injective` | sf-2013-03-18-bloom-filter/bloom.cs:17 | the reinterpretation maps distinct `GetHashCode` values to distinct hashes |
| `StringHashes.Hash` | sf-2013-03-18-bloom-filter/bloom.cs:13-158 | the MurmurHash2 and SuperFastHash strategies hash the empty string to 0 (UTF-8 of `""` is empty and both byte hashes return 0 for length 0) |
| `StringHashes.ComputeHash` | sf-2013-03-18-bloom-filter/bloom.cs:13-158 | running a strategy with the hash loops gives the strategy's hash |
| `StringHashes.CryptographicIgnoresNonAsciiCharacters` | sf-2013-03-18-bloom-filter/bloom.cs:152-157 | two strings that differ only in which non-ASCII characters they hold get the same cryptographic-strategy hash, whatever the digest |
| `StringHashes.CryptographicIdentityIsMurmurOnAscii` | sf-2013-03-18-bloom-filter/bloom.cs:152-157 | on ASCII strings, a cryptographic strategy with an identity digest hashes exactly as `MurmurHash2Simple` |
| `StringHashes.HelloBytes` | sf-2013-03-18-bloom-filter/bloom.cs:26 | the UTF-8 bytes of "hello" are its ASCII codes |
| `StringHashes.MurmurHelloVector` | sf-2013-03-18-bloom-filter/bloom.cs:24-27 | `MurmurHash2Simple` hashes "hello" to `0x8d0c86bc` |
| `StringHashes.SuperFastHelloVector` | sf-2013-03-18-bloom-filter/bloom.cs:87-90 | `SuperFastHashSimple` hashes "hello" to `0xb09dc87b` |
| `Bloom.Position` | sf-2013-03-18-bloom-filter/bloom.cs:175 | a hash modulo a positive table length is a valid bit index |
| `Bloom.Positions` | sf-2013-03-18-bloom-filter/bloom.cs:173-177 | a string selects one index per strategy, each inside the table |
| `Bloom.Empty` | sf-2013-03-18-bloom-filter/bloom.cs:168 | a new table has `size` bits, all clear |
| `Bloom.Insert` | sf-2013-03-18-bloom-filter/bloom.cs:171-178 | setting the bits at some positions: <ul><li>sets each of them;</li><li>keeps every bit that was set;</li><li>changes no other bit;</li><li>keeps the length</li></ul> |
| `Bloom.Filled` | sf-2013-03-18-bloom-filter/bloom.cs:171-178 | adds never change the table length |
| `Bloom.Query` | sf-2013-03-18-bloom-filter/bloom.cs:180-189 | a lookup divides by zero exactly when the table is empty and there is a strategy; otherwise it answers yes exactly when the bit every strategy selects is set |
| `Bloom.CountSet` | sf-2013-03-18-bloom-filter/bloom.cs:191-198 | the number of set bits lies in `[0, Length]` |
| `Bloom.InsertKeepsAllSet` | sf-2013-03-18-bloom-filter/bloom.cs:176 | setting bits never clears one, so any set of positions that was all set stays all set |
| `Bloom.AddedIsFound` | sf-2013-03-18-bloom-filter/bloom.cs:171-189 | no false negatives: every added string's bits are all set, however many strings were added after it |
| `Bloom.EmptyFindsNothing` | sf-2013-03-18-bloom-filter/bloom.cs:165-189 | on a new table of positive size, a lookup fails whenever there is at least one strategy |
| `Bloom.NoStrategiesFindsEverything` | sf-2013-03-18-bloom-filter/bloom.cs:180-189 | with an empty strategy list every lookup succeeds, whatever the table |
| `Bloom.InsertOneMore` | sf-2013-03-18-bloom-filter/bloom.cs:173-177 | one more iteration of the `foreach` sets the bit at the next position |
| `Bloom.InsertAllSet` | sf-2013-03-18-bloom-filter/bloom.cs:176 | setting bits that are already set leaves the table unchanged |
| `Bloom.AddAgainChangesNothing` | sf-2013-03-18-bloom-filter/bloom.cs:171-178 | adding a string that was already added leaves the table unchanged |
| `Bloom.AddsCommute` | sf-2013-03-18-bloom-filter/bloom.cs:171-178 | the order of two adds does not affect the table |
| `Bloom.CountSetUpdate` | sf-2013-03-18-bloom-filter/bloom.cs:176 | setting one bit raises the count by one exactly when the bit was clear |
| `Bloom.InsertCount` | sf-2013-03-18-bloom-filter/bloom.cs:171-178 | an add never lowers the set-bit count and raises it by at most the number of strategies |
| `Bloom.FilledCount` | sf-2013-03-18-bloom-filter/bloom.cs:191-200 | after `m` adds with `k` strategies, at most `m * k` bits are set |
| `Bloom.EmptyCount` | sf-2013-03-18-bloom-filter/bloom.cs:168 | a new table has no set bits |
| `Bloom.FractionMonotone` | sf-2013-03-18-bloom-filter/bloom.cs:199 | over the same positive table length, a smaller count gives a smaller, non-negative occupancy. A count within the length gives at most 1 |
| `Bloom.BloomFilter.constructor` | sf-2013-03-18-bloom-filter/bloom.cs:165-169 | the filter keeps the given strategies and has a fresh table of `size` clear bits with nothing added |
| `Bloom.BloomFilter.Add` | sf-2013-03-18-bloom-filter/bloom.cs:171-178 | on a table of positive size, or with no strategies: <ul><li>sets exactly the bits the strategies select;</li><li>keeps all others;</li><li>records the string as added;</li><li>keeps the table in step with its history</li></ul> With size zero and a strategy it reports the division by zero and changes nothing |
| `Bloom.BloomFilter.Lookup` | sf-2013-03-18-bloom-filter/bloom.cs:180-189 | answers whether every selected bit is set, stopping at the first clear one, and changes nothing. A string that was added is always found. With size zero and a strategy it reports the division by zero |
| `Bloom.BloomFilter.Occupancy` | sf-2013-03-18-bloom-filter/bloom.cs:191-200 | returns the number of set bits over the length, which lies in `[0, 1]` and is at most (adds times strategies) over the length. A table of size zero gives NaN |
| `Bloom.TestStrategies` | sf-2013-03-18-bloom-filter/bloom.cs:207-215 | the filter of `BloomTest.Main` runs three strategies: `StandardHash`, `MurmurHash2Simple`, `SuperFastHashSimple` |
| `Bloom.TestFilter` | sf-2013-03-18-bloom-filter/bloom.cs:205-255 | with the word list as a value: every other word, from the first, is added to a filter of 1000003 bits; every added word is then found, so the `"error!"` exit is never taken; the false-positive count is at most the number of words not added |

## Left out

- `float` rounding in `Occupancy` is not modelled: the quotient is an exact `real`. NaN for `0 / 0` is kept as a separate value.
- The `StandardHash` strategy is a parameter, not a definition. `string.GetHashCode` belongs to the host runtime and its values depend on the platform, so it is a function field of that strategy (`string -> int32`).
- The `CryptographicHash` strategy's digest is a parameter for the same reason. `HashAlgorithm.ComputeHash` is a library call (MD5, SHA-1, …), so the strategy carries it as a function field (`seq<bv8> -> seq<bv8>`).
- `BitConverter` reads follow host byte order. The model reads little-endian, as on x86 and ARM hosts.
- C# strings are UTF-16 and may hold unpaired surrogates, which `UTF8.GetBytes` replaces. A Dafny `char` is a Unicode scalar value, so unpaired surrogates cannot occur in the model.
- `Text.AsciiEncode`: writes one `'?'` per non-ASCII Unicode scalar value. The .NET replacement fallback is handed a well-formed surrogate pair as one unit and writes one `'?'` for it, which is what the model does. An unpaired surrogate gets its own `'?'` there, but cannot occur in the model. A runtime whose encoder replaces each UTF-16 code unit separately writes `"??"` (two bytes) for a character above U+FFFF, where the model writes one byte; that behaviour is not modelled.
- `StringHashes.CryptographicIgnoresNonAsciiCharacters`: "character" means a Unicode scalar value, the unit the model's ASCII encoder replaces. On a runtime that replaces each UTF-16 code unit, the C# property holds with "character" read as a UTF-16 code unit instead.
- `Words.LengthWord`: the contract states only the two low bits of the length word (the length modulo four). Its value, the length modulo 2^32 and so the length itself for any array length, follows from the counting-up body but is not proved: relating `bv32` and `int` values runs out of resource. So the starting values `seed ^ length` of MurmurHash2 and `length` of SuperFastHash are tied to the numeric length only by that body, and the known vectors check it only at length 5.
- The `BloomFilter` constructor takes a `nat` size. A negative size, which makes `BitArray` throw, is not modelled.
- `Bloom.TestFilter`: the file read of `BloomTest.Main` is left out (the word list is a parameter), and so are `Trim`, the console output and the false-positive rate as a `float`.
- The hash loops do not spell out each C# statement of an iteration. Their bodies apply the step functions of the reference definition (`MixBlock`, `Round`, `MixTail`, the avalanche). Each step function is itself written as the C# sequence of compound assignments. The step functions `MixBlock`, `Finalize`, `Round`, `SuperFastHash.MixTail` and `Avalanche` carry no contract of their own; what is proved about them is the inverse of their shift steps (`Words.XorShr24UndoesItself`, `Words.XorShlUndoesItself`) and, through `ComputeHash` and the known vectors, what the loops compute with them.
- `SuperFastHash.ComputeHash`: computes `remainingBytes` and `numberOfLoops` with `%` and `/` on the non-negative length where the C# writes `& 3` and `>> 2`; `Words.MaskAndShiftDivideByFour` shows the two agree on 32-bit words.
- `MurmurHash2.Hash` and `SuperFastHash.Hash`: their contracts state only the empty-input case. What they compute for non-empty input is tied to the C# by `ComputeHash` and the known vectors. No collision or inversion property of the mixing is proved.
