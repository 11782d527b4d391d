/** How Node measures and encodes JavaScript strings: `.length` counts UTF-16 code units,
    while `Buffer.from(string)` stores the UTF-8 encoding. */
module Utf {
  import opened Bytes

  /** UTF-16 code units of one character: two for characters beyond the Basic Multilingual Plane. */
  function Utf16Units(c: char): nat {
    if c as int >= 0x1_0000 then 2 else 1
  }

  /** JavaScript's `s.length`. */
  function Utf16Length(s: string): nat {
    if |s| == 0 then 0 else Utf16Length(s[..|s| - 1]) + Utf16Units(s[|s| - 1])
  }

  /** The UTF-8 encoding of one character (one to four bytes). */
  function EncodeChar(c: char): (r: seq<byte>)
    ensures |r| == 1 <==> c as int < 0x80
    ensures |r| >= Utf16Units(c)
  {
    var n := c as int;
    if n < 0x80 then [n as byte]
    else if n < 0x800 then [(0xC0 + n / 0x40) as byte, (0x80 + n % 0x40) as byte]
    else if n < 0x1_0000 then
      [(0xE0 + n / 0x1000) as byte, (0x80 + n / 0x40 % 0x40) as byte, (0x80 + n % 0x40) as byte]
    else
      [(0xF0 + n / 0x4_0000) as byte, (0x80 + n / 0x1000 % 0x40) as byte,
       (0x80 + n / 0x40 % 0x40) as byte, (0x80 + n % 0x40) as byte]
  }

  /** `Buffer.from(s)`: the UTF-8 encoding of the string. */
  function Utf8Encode(s: string): seq<byte> {
    if |s| == 0 then [] else Utf8Encode(s[..|s| - 1]) + EncodeChar(s[|s| - 1])
  }

  /** Every character is ASCII. */
  predicate IsAscii(s: string) {
    forall k :: 0 <= k < |s| ==> s[k] as int < 0x80
  }

  /** A string's UTF-8 encoding is never shorter than its JavaScript length, and the two agree
      exactly when the string is ASCII. */
  lemma {:induction false} Utf8CoversUtf16(s: string)
    ensures |Utf8Encode(s)| >= Utf16Length(s)
    ensures |Utf8Encode(s)| == Utf16Length(s) <==> IsAscii(s)
    decreases |s|
  {
    if |s| > 0 {
      var init := s[..|s| - 1];
      Utf8CoversUtf16(init);
      assert IsAscii(s) <==> IsAscii(init) && s[|s| - 1] as int < 0x80 by {
        assert forall k :: 0 <= k < |init| ==> init[k] == s[k];
      }
    }
  }
}
