/**
 * Base 64 encoding as section 4 of RFC 4648 defines it (the standard
 * alphabet, `=` padding), which Python's `base64.b64encode` implements.
 * The decoder exists to state what the encoding preserves: decoding an
 * encoding gives the original octets back.
 */
module Base64 {
  import opened Strings

  /** The alphabet of RFC 4648, table 1: value `k` is written as `CharOf(k)`. */
  function CharOf(k: int): (c: char)
    requires 0 <= k < 64
    ensures c != '='
  {
    if k < 26 then (('A' as int) + k) as char
    else if k < 52 then (('a' as int) + (k - 26)) as char
    else if k < 62 then (('0' as int) + (k - 52)) as char
    else if k == 62 then '+'
    else '/'
  }

  /** The value a character stands for in the alphabet, or -1 for any other character. */
  function ValueOf(c: char): (k: int)
    ensures -1 <= k < 64
    ensures k >= 0 ==> CharOf(k) == c
  {
    if 'A' <= c <= 'Z' then (c as int) - ('A' as int)
    else if 'a' <= c <= 'z' then (c as int) - ('a' as int) + 26
    else if '0' <= c <= '9' then (c as int) - ('0' as int) + 52
    else if c == '+' then 62
    else if c == '/' then 63
    else -1
  }

  /** Every alphabet character is read back as the value it was written for. */
  lemma ValueOfCharOf(k: int)
    requires 0 <= k < 64
    ensures ValueOf(CharOf(k)) == k
  {
  }

  /** Three octets become four characters, six bits each, high bits first. */
  function EncodeGroup(a: byte, b: byte, c: byte): seq<char> {
    [CharOf(a / 4), CharOf((a % 4) * 16 + b / 16), CharOf((b % 16) * 4 + c / 64), CharOf(c % 64)]
  }

  /**
   * `base64.b64encode(data).decode()`: groups of three octets, with the last
   * one or two octets padded out with `=`.
   */
  function Encode(data: seq<byte>): (s: string)
    ensures |s| == 4 * ((|data| + 2) / 3)
    decreases |data|
  {
    if |data| == 0 then ""
    else if |data| == 1 then
      [CharOf(data[0] / 4), CharOf((data[0] % 4) * 16), '=', '=']
    else if |data| == 2 then
      [CharOf(data[0] / 4), CharOf((data[0] % 4) * 16 + data[1] / 16), CharOf((data[1] % 16) * 4), '=']
    else
      assert (|data| + 2) / 3 == (|data[3..]| + 2) / 3 + 1;
      EncodeGroup(data[0], data[1], data[2]) + Encode(data[3..])
  }

  /** Every character of an encoding is padding or a character of the alphabet. */
  lemma {:induction false} EncodeAlphabet(data: seq<byte>)
    ensures forall k :: 0 <= k < |Encode(data)| ==> Encode(data)[k] == '=' || ValueOf(Encode(data)[k]) >= 0
    decreases |data|
  {
    var s := Encode(data);
    if |data| == 1 {
      ValueOfCharOf(data[0] / 4);
      ValueOfCharOf((data[0] % 4) * 16);
    } else if |data| == 2 {
      ValueOfCharOf(data[0] / 4);
      ValueOfCharOf((data[0] % 4) * 16 + data[1] / 16);
      ValueOfCharOf((data[1] % 16) * 4);
    } else if |data| >= 3 {
      var group := EncodeGroup(data[0], data[1], data[2]);
      ValueOfCharOf(data[0] / 4);
      ValueOfCharOf((data[0] % 4) * 16 + data[1] / 16);
      ValueOfCharOf((data[1] % 16) * 4 + data[2] / 64);
      ValueOfCharOf(data[2] % 64);
      EncodeAlphabet(data[3..]);
      assert s == group + Encode(data[3..]);
    }
  }

  /** The inverse of `Encode` on well-formed input; `None` on anything else it cannot read. */
  function Decode(s: string): Option<seq<byte>>
    decreases |s|
  {
    if |s| == 0 then Some([])
    else if |s| < 4 then None
    else
      var v0, v1, v2, v3 := ValueOf(s[0]), ValueOf(s[1]), ValueOf(s[2]), ValueOf(s[3]);
      if v0 < 0 || v1 < 0 then None
      else if |s| == 4 && s[2] == '=' && s[3] == '=' then
        Some([v0 * 4 + v1 / 16])
      else if |s| == 4 && s[3] == '=' && v2 >= 0 then
        Some([v0 * 4 + v1 / 16, (v1 % 16) * 16 + v2 / 4])
      else if v2 < 0 || v3 < 0 then None
      else
        match Decode(s[4..])
        case None => None
        case Some(rest) => Some([v0 * 4 + v1 / 16, (v1 % 16) * 16 + v2 / 4, (v2 % 4) * 64 + v3] + rest)
  }

  /** The bit arithmetic of one group: splitting three octets into four 6-bit values and joining them back. */
  lemma GroupArithmetic(a: byte, b: byte, c: byte)
    ensures (a / 4) * 4 + ((a % 4) * 16 + b / 16) / 16 == a
    ensures (((a % 4) * 16 + b / 16) % 16) * 16 + ((b % 16) * 4 + c / 64) / 4 == b
    ensures (((b % 16) * 4 + c / 64) % 4) * 64 + c % 64 == c
  {
    assert ((a % 4) * 16 + b / 16) / 16 == a % 4;
    assert ((a % 4) * 16 + b / 16) % 16 == b / 16;
    assert ((b % 16) * 4 + c / 64) / 4 == b % 16;
    assert ((b % 16) * 4 + c / 64) % 4 == c / 64;
  }

  lemma DecodeEncodeOne(a: byte)
    ensures Decode(Encode([a])) == Some([a])
  {
    ValueOfCharOf(a / 4);
    ValueOfCharOf((a % 4) * 16);
    GroupArithmetic(a, 0, 0);
  }

  lemma DecodeEncodeTwo(a: byte, b: byte)
    ensures Decode(Encode([a, b])) == Some([a, b])
  {
    ValueOfCharOf(a / 4);
    ValueOfCharOf((a % 4) * 16 + b / 16);
    ValueOfCharOf((b % 16) * 4);
    GroupArithmetic(a, b, 0);
  }

  /** A full group followed by any encoding decodes to the group's octets followed by what the rest decodes to. */
  lemma DecodeGroup(a: byte, b: byte, c: byte, rest: string)
    ensures Decode(EncodeGroup(a, b, c) + rest) ==
      match Decode(rest)
      case None => None
      case Some(r) => Some([a, b, c] + r)
  {
    var s := EncodeGroup(a, b, c) + rest;
    assert s[4..] == rest;
    ValueOfCharOf(a / 4);
    ValueOfCharOf((a % 4) * 16 + b / 16);
    ValueOfCharOf((b % 16) * 4 + c / 64);
    ValueOfCharOf(c % 64);
    GroupArithmetic(a, b, c);
  }

  /** Decoding an encoding returns the original octets (RFC 4648 section 4 round trip). */
  lemma {:induction false} DecodeEncode(data: seq<byte>)
    ensures Decode(Encode(data)) == Some(data)
    decreases |data|
  {
    if |data| == 0 {
    } else if |data| == 1 {
      assert data == [data[0]];
      DecodeEncodeOne(data[0]);
    } else if |data| == 2 {
      assert data == [data[0], data[1]];
      DecodeEncodeTwo(data[0], data[1]);
    } else {
      var a, b, c, tail := data[0], data[1], data[2], data[3..];
      var rest := Encode(tail);
      assert Encode(data) == EncodeGroup(a, b, c) + rest;
      DecodeEncode(tail);
      DecodeGroup(a, b, c, rest);
      assert Decode(EncodeGroup(a, b, c) + rest) == Some([a, b, c] + tail);
      assert data == [a, b, c] + tail;
    }
  }
}
