/**
 Room codes: three random bytes rendered as lowercase hexadecimal, the way
 a Node.js `Buffer` renders itself with `toString('hex')` (two digits per
 byte, high nibble first). The random source is a parameter: the caller
 passes the bytes in.
 */
module RoomCode {

  import opened Protocol

  type Byte = b: int | 0 <= b < 256

  /** One of "0123456789abcdef". */
  predicate IsHexDigit(ch: char) {
    '0' <= ch <= '9' || 'a' <= ch <= 'f'
  }

  /** A well-formed room code: exactly six lowercase hexadecimal digits. */
  predicate IsRoomCode(s: string) {
    |s| == 6 && forall i :: 0 <= i < |s| ==> IsHexDigit(s[i])
  }

  /** The lowercase digit for a nibble. */
  function HexDigit(n: int): (ch: char)
    requires 0 <= n < 16
    ensures IsHexDigit(ch)
  {
    if n < 10 then ('0' as int + n) as char else ('a' as int + n - 10) as char
  }

  /** One byte as two lowercase hex digits, high nibble first. */
  function HexByte(b: Byte): (s: string)
    ensures |s| == 2 && IsHexDigit(s[0]) && IsHexDigit(s[1])
  {
    [HexDigit(b / 16), HexDigit(b % 16)]
  }

  /** Renders bytes as lowercase hexadecimal. */
  function Hex(bytes: seq<Byte>): (s: string)
    ensures |s| == 2 * |bytes|
    ensures forall i :: 0 <= i < |s| ==> IsHexDigit(s[i])
  {
    if bytes == [] then "" else HexByte(bytes[0]) + Hex(bytes[1..])
  }

  /** The value of one hexadecimal digit, if it is one. */
  function DigitValue(ch: char): (v: Option<int>)
    ensures v.Some? <==> IsHexDigit(ch)
    ensures v.Some? ==> 0 <= v.value < 16 && HexDigit(v.value) == ch
  {
    if '0' <= ch <= '9' then Some(ch as int - '0' as int)
    else if 'a' <= ch <= 'f' then Some(ch as int - 'a' as int + 10)
    else None
  }

  /** The byte two hex digits spell, if both are digits. */
  function ByteValue(hi: char, lo: char): (b: Option<Byte>)
    ensures b.Some? <==> IsHexDigit(hi) && IsHexDigit(lo)
    ensures b.Some? ==> HexByte(b.value) == [hi, lo]
  {
    var h, l := DigitValue(hi), DigitValue(lo);
    if h.Some? && l.Some? then
      NibbleSplit(h.value, l.value);
      Some(h.value * 16 + l.value)
    else None
  }

  /** Parses lowercase hexadecimal back into bytes; the inverse of `Hex`. */
  function Unhex(s: string): (r: Option<seq<Byte>>)
    ensures r.Some? ==> |r.value| * 2 == |s|
  {
    if s == [] then Some([])
    else if |s| == 1 then None
    else
      var b, rest := ByteValue(s[0], s[1]), Unhex(s[2..]);
      if b.Some? && rest.Some? then Some([b.value] + rest.value) else None
  }

  /** `generateRoomCode`: the hex rendering of three random bytes. */
  function GenerateRoomCode(entropy: seq<Byte>): (code: string)
    requires |entropy| == 3
    ensures IsRoomCode(code)
  {
    Hex(entropy)
  }

  lemma NibbleSplit(hi: int, lo: int)
    requires 0 <= hi < 16 && 0 <= lo < 16
    ensures 0 <= hi * 16 + lo < 256
    ensures (hi * 16 + lo) / 16 == hi && (hi * 16 + lo) % 16 == lo
  {
  }

  /** The two digits of a byte parse back to that byte. */
  lemma ByteValueOfHexByte(b: Byte)
    ensures ByteValue(HexByte(b)[0], HexByte(b)[1]) == Some(b)
  {
    var hi, lo := b / 16, b % 16;
    ByteSplit(b);
    DigitOfHex(hi);
    DigitOfHex(lo);
    assert HexByte(b)[0] == HexDigit(hi) && HexByte(b)[1] == HexDigit(lo);
  }

  lemma ByteSplit(b: Byte)
    ensures 0 <= b / 16 < 16 && 0 <= b % 16 < 16 && b / 16 * 16 + b % 16 == b
  {
  }

  lemma DigitOfHex(n: int)
    requires 0 <= n < 16
    ensures DigitValue(HexDigit(n)) == Some(n)
  {
  }

  /** Parsing the rendering gives the bytes back. */
  lemma {:induction false} UnhexHex(bytes: seq<Byte>)
    ensures Unhex(Hex(bytes)) == Some(bytes)
  {
    if bytes != [] {
      var s := Hex(bytes);
      assert s[..2] == HexByte(bytes[0]) && s[2..] == Hex(bytes[1..]);
      ByteValueOfHexByte(bytes[0]);
      UnhexHex(bytes[1..]);
      assert [bytes[0]] + bytes[1..] == bytes;
    }
  }

  /** Whatever parses renders back to the same text. */
  lemma {:induction false} HexUnhex(s: string)
    requires Unhex(s).Some?
    ensures Hex(Unhex(s).value) == s
  {
    if s != [] {
      var b := ByteValue(s[0], s[1]).value;
      var rest := Unhex(s[2..]).value;
      HexUnhex(s[2..]);
      var bytes := [b] + rest;
      assert Unhex(s).value == bytes;
      assert bytes[0] == b && bytes[1..] == rest;
      assert s == [s[0], s[1]] + s[2..];
    }
  }

  /** Distinct entropy gives distinct codes: the code loses no information. */
  lemma GenerateRoomCodeInjective(a: seq<Byte>, b: seq<Byte>)
    requires |a| == 3 && |b| == 3
    requires GenerateRoomCode(a) == GenerateRoomCode(b)
    ensures a == b
  {
    UnhexHex(a);
    UnhexHex(b);
  }

  /** Every six-digit lowercase hex string is the code of some entropy, so the
      generator ranges over exactly 16^6 codes and can collide. */
  lemma {:induction false} EveryRoomCodeIsGenerated(s: string)
    requires IsRoomCode(s)
    ensures Unhex(s).Some? && |Unhex(s).value| == 3
    ensures GenerateRoomCode(Unhex(s).value) == s
  {
    HexDigitsParse(s);
    HexUnhex(s);
  }

  lemma {:induction false} HexDigitsParse(s: string)
    requires |s| % 2 == 0
    requires forall i :: 0 <= i < |s| ==> IsHexDigit(s[i])
    ensures Unhex(s).Some?
  {
    if s != [] {
      assert IsHexDigit(s[0]) && IsHexDigit(s[1]);
      HexDigitsParse(s[2..]);
    }
  }
}
