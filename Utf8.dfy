/**
  UTF-8 (RFC 3629, section 3), the encoding Python's `urllib.parse.quote`
  applies to a `str` before escaping its bytes. A Dafny `char` is a Unicode
  scalar value, so every string has an encoding.
 */
module Utf8 {
  import opened Wrappers

  /** One element of a Python `bytes` value. */
  type byte = b: int | 0 <= b < 256

  predicate IsContinuation(b: byte) {
    0x80 <= b < 0xC0
  }

  /** The one to four bytes that encode a single scalar value. */
  function EncodeChar(c: char): (r: seq<byte>)
    ensures 1 <= |r| <= 4
    ensures (|r| == 1) == (c as int < 0x80)
    ensures |r| == 1 ==> r[0] == c as int
    ensures |r| > 1 ==> r[0] >= 0xC0 && forall k :: 1 <= k < |r| ==> IsContinuation(r[k])
  {
    var cp := c as int;
    if cp < 0x80 then [cp]
    else if cp < 0x800 then [0xC0 + cp / 0x40, 0x80 + cp % 0x40]
    else if cp < 0x10000 then [0xE0 + cp / 0x1000, 0x80 + cp / 0x40 % 0x40, 0x80 + cp % 0x40]
    else [0xF0 + cp / 0x40000, 0x80 + cp / 0x1000 % 0x40, 0x80 + cp / 0x40 % 0x40, 0x80 + cp % 0x40]
  }

  /** `s.encode("utf-8")` */
  function Encode(s: string): (r: seq<byte>)
    ensures |r| >= |s|
  {
    if |s| == 0 then [] else EncodeChar(s[0]) + Encode(s[1..])
  }

  /**
    Reads the scalar value at the front of `bs` and the number of bytes it
    occupies; rejects stray continuation bytes, truncated sequences, overlong
    forms, surrogates and values beyond U+10FFFF.
   */
  function DecodeFirst(bs: seq<byte>): (r: Option<(char, nat)>)
    requires |bs| > 0
    ensures r.Some? ==> 1 <= r.value.1 <= |bs|
  {
    var b0: int := bs[0];
    if b0 < 0x80 then Some((b0 as char, 1))
    else if 0xC0 <= b0 < 0xE0 then
      if |bs| < 2 || !IsContinuation(bs[1]) then None
      else
        var cp := (b0 - 0xC0) * 0x40 + (bs[1] as int - 0x80);
        if cp < 0x80 then None else Some((cp as char, 2))
    else if 0xE0 <= b0 < 0xF0 then
      if |bs| < 3 || !IsContinuation(bs[1]) || !IsContinuation(bs[2]) then None
      else
        var cp := (b0 - 0xE0) * 0x1000 + (bs[1] as int - 0x80) * 0x40 + (bs[2] as int - 0x80);
        if cp < 0x800 || (0xD800 <= cp < 0xE000) then None else Some((cp as char, 3))
    else if 0xF0 <= b0 < 0xF8 then
      if |bs| < 4 || !IsContinuation(bs[1]) || !IsContinuation(bs[2]) || !IsContinuation(bs[3]) then None
      else
        var cp := (b0 - 0xF0) * 0x40000 + (bs[1] as int - 0x80) * 0x1000 + (bs[2] as int - 0x80) * 0x40 + (bs[3] as int - 0x80);
        if cp < 0x10000 || cp >= 0x110000 then None else Some((cp as char, 4))
    else None
  }

  /** `bs.decode("utf-8")`, with `None` for the `UnicodeDecodeError` case. */
  function Decode(bs: seq<byte>): (r: Option<string>)
    decreases |bs|
  {
    if |bs| == 0 then Some([])
    else match DecodeFirst(bs)
      case None => None
      case Some((c, k)) =>
        match Decode(bs[k..])
        case None => None
        case Some(rest) => Some([c] + rest)
  }

  /** The decoder reads back exactly the scalar value the encoder wrote, whatever follows it. */
  lemma DecodeFirstEncodeChar(c: char, rest: seq<byte>)
    ensures DecodeFirst(EncodeChar(c) + rest) == Some((c, |EncodeChar(c)|))
  {
    var cp := c as int;
    if cp < 0x80 {
    } else if cp < 0x800 {
      DecodeTwo(c, rest);
    } else if cp < 0x10000 {
      DecodeThree(c, rest);
    } else {
      DecodeFour(c, rest);
    }
  }

  lemma DecodeTwo(c: char, rest: seq<byte>)
    requires 0x80 <= c as int < 0x800
    ensures DecodeFirst(EncodeChar(c) + rest) == Some((c, 2))
  {
    var cp := c as int;
    var bs := EncodeChar(c) + rest;
    assert bs[0] == 0xC0 + cp / 0x40 && bs[1] == 0x80 + cp % 0x40;
    assert (cp / 0x40) * 0x40 + cp % 0x40 == cp;
  }

  lemma DecodeThree(c: char, rest: seq<byte>)
    requires 0x800 <= c as int < 0x10000
    ensures DecodeFirst(EncodeChar(c) + rest) == Some((c, 3))
  {
    var cp := c as int;
    var bs := EncodeChar(c) + rest;
    var q := cp / 0x40;
    assert bs[0] == 0xE0 + q / 0x40 && bs[1] == 0x80 + q % 0x40 && bs[2] == 0x80 + cp % 0x40;
    assert cp / 0x1000 == q / 0x40;
    assert q * 0x40 + cp % 0x40 == cp;
    assert (q / 0x40) * 0x40 + q % 0x40 == q;
  }

  lemma DecodeFour(c: char, rest: seq<byte>)
    requires 0x10000 <= c as int
    ensures DecodeFirst(EncodeChar(c) + rest) == Some((c, 4))
  {
    var cp := c as int;
    var bs := EncodeChar(c) + rest;
    var q := cp / 0x40;
    var q2 := q / 0x40;
    assert cp / 0x1000 == q2 && cp / 0x40000 == q2 / 0x40;
    assert bs[0] == 0xF0 + q2 / 0x40 && bs[1] == 0x80 + q2 % 0x40;
    assert bs[2] == 0x80 + q % 0x40 && bs[3] == 0x80 + cp % 0x40;
    assert q * 0x40 + cp % 0x40 == cp;
    assert q2 * 0x40 + q % 0x40 == q;
    assert (q2 / 0x40) * 0x40 + q2 % 0x40 == q2;
  }

  lemma EncodeAppend(a: string, b: string)
    ensures Encode(a + b) == Encode(a) + Encode(b)
  {
    if |a| > 0 {
      assert (a + b)[0] == a[0] && (a + b)[1..] == a[1..] + b;
      EncodeAppend(a[1..], b);
      calc {
        Encode(a + b);
        EncodeChar(a[0]) + Encode(a[1..] + b);
        EncodeChar(a[0]) + (Encode(a[1..]) + Encode(b));
      }
    } else {
      assert a + b == b;
    }
  }

  /** Decoding inverts encoding: `s.encode("utf-8").decode("utf-8") == s`. */
  lemma {:induction false} DecodeEncode(s: string)
    ensures Decode(Encode(s)) == Some(s)
  {
    if |s| > 0 {
      var e := EncodeChar(s[0]);
      var bs := Encode(s);
      assert bs == e + Encode(s[1..]);
      DecodeFirstEncodeChar(s[0], Encode(s[1..]));
      assert bs[|e|..] == Encode(s[1..]);
      DecodeEncode(s[1..]);
      assert [s[0]] + s[1..] == s;
    }
  }

  /** Distinct strings have distinct encodings. */
  lemma EncodeInjective(s: string, t: string)
    requires Encode(s) == Encode(t)
    ensures s == t
  {
    DecodeEncode(s);
    DecodeEncode(t);
  }
}
