/**
 * The two string-to-byte encodings the hash strategies use: UTF-8 for the
 * MurmurHash2 and SuperFastHash strategies and ASCII, with '?' for anything
 * outside it, for the cryptographic one. A Dafny `char` is a Unicode scalar
 * value, so every character has exactly one encoding.
 */
module Text {

  /** The byte `'?'`, which the ASCII encoding writes for a character it cannot represent. */
  const QuestionMark: bv8 := 0x3F

  /** The single byte of a 7-bit ASCII character: its code. */
  function AsciiByte(c: char): bv8
    requires (c as int) < 0x80
  {
    (c as int) as bv8
  }

  /** The two-byte UTF-8 form `110xxxxx 10xxxxxx` of a code point below 0x800. */
  function Utf8Two(cp: int): (b: seq<bv8>)
    requires 0x80 <= cp < 0x800
    ensures |b| == 2
  {
    [(0xC0 + cp / 0x40) as bv8, (0x80 + cp % 0x40) as bv8]
  }

  /** The three-byte UTF-8 form `1110xxxx 10xxxxxx 10xxxxxx` of a code point below 0x10000. */
  function Utf8Three(cp: int): (b: seq<bv8>)
    requires 0x800 <= cp < 0x1_0000
    ensures |b| == 3
  {
    [(0xE0 + cp / 0x1000) as bv8, (0x80 + (cp / 0x40) % 0x40) as bv8, (0x80 + cp % 0x40) as bv8]
  }

  /** The four-byte UTF-8 form `11110xxx 10xxxxxx 10xxxxxx 10xxxxxx` of a supplementary code point. */
  function Utf8Four(cp: int): (b: seq<bv8>)
    requires 0x1_0000 <= cp < 0x11_0000
    ensures |b| == 4
  {
    [(0xF0 + cp / 0x4_0000) as bv8, (0x80 + (cp / 0x1000) % 0x40) as bv8,
     (0x80 + (cp / 0x40) % 0x40) as bv8, (0x80 + cp % 0x40) as bv8]
  }

  /** The UTF-8 encoding of one Unicode scalar value: one byte exactly for ASCII, otherwise two to four. */
  function Utf8Char(c: char): (b: seq<bv8>)
    ensures 1 <= |b| <= 4
    ensures |b| == 1 <==> (c as int) < 0x80
    ensures |b| == 1 ==> b == [AsciiByte(c)]
  {
    var cp := c as int;
    if cp < 0x80 then [AsciiByte(c)]
    else if cp < 0x800 then Utf8Two(cp)
    else if cp < 0x1_0000 then Utf8Three(cp)
    else Utf8Four(cp)
  }

  /** The UTF-8 encoding of a string: the encodings of its characters, in order. */
  function Utf8Encode(s: string): (b: seq<bv8>)
    ensures |s| <= |b| <= 4 * |s|
  {
    if s == [] then [] else Utf8Char(s[0]) + Utf8Encode(s[1..])
  }

  /** A string all of whose characters are 7-bit ASCII. */
  predicate IsAscii(s: string) {
    forall i :: 0 <= i < |s| ==> (s[i] as int) < 0x80
  }

  /** The ASCII encoding of a string: one byte per character, `'?'` for every non-ASCII character. */
  function AsciiEncode(s: string): (b: seq<bv8>)
    ensures |b| == |s|
    ensures forall i :: 0 <= i < |s| ==>
      b[i] == (if (s[i] as int) < 0x80 then AsciiByte(s[i]) else QuestionMark)
  {
    seq(|s|, i requires 0 <= i < |s| => if (s[i] as int) < 0x80 then AsciiByte(s[i]) else QuestionMark)
  }

  /**
   * On an ASCII string the two encodings agree: UTF-8 writes one byte per
   * character, its code, just as the ASCII encoding does.
   */
  lemma {:induction false} Utf8OfAscii(s: string)
    requires IsAscii(s)
    ensures Utf8Encode(s) == AsciiEncode(s)
  {
    if s != [] {
      assert IsAscii(s[1..]) by {
        forall i | 0 <= i < |s[1..]| ensures (s[1..][i] as int) < 0x80 {
          assert s[1..][i] == s[i + 1];
        }
      }
      Utf8OfAscii(s[1..]);
      var b := AsciiEncode(s);
      assert b == [AsciiByte(s[0])] + AsciiEncode(s[1..]) by {
        forall i | 1 <= i < |s| ensures b[i] == AsciiEncode(s[1..])[i - 1] {
          assert s[1..][i - 1] == s[i];
        }
      }
    }
  }

  /** Every non-ASCII character costs UTF-8 at least one extra byte: the encodings have equal length only on ASCII strings. */
  lemma {:induction false} Utf8LengthIsAsciiLengthOnlyForAscii(s: string)
    ensures |Utf8Encode(s)| == |s| <==> IsAscii(s)
  {
    if s != [] {
      Utf8LengthIsAsciiLengthOnlyForAscii(s[1..]);
      if IsAscii(s) {
        assert IsAscii(s[1..]) by {
          forall i | 0 <= i < |s[1..]| ensures (s[1..][i] as int) < 0x80 {
            assert s[1..][i] == s[i + 1];
          }
        }
      } else if (s[0] as int) < 0x80 {
        assert !IsAscii(s[1..]) by {
          var j :| 0 <= j < |s| && (s[j] as int) >= 0x80;
          assert s[1..][j - 1] == s[j];
        }
      }
    }
  }
}
