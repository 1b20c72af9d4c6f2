/**
  Percent-encoding as `urllib.parse.quote` performs it: the string is encoded
  as UTF-8 and every byte outside the kept set is written `%XX` with
  upper-case hexadecimal digits. With an empty `safe` argument this is the
  encoding of section 3.6 of RFC 5849.
 */
module PercentEncoding {
  import opened Wrappers
  import opened Utf8

  /** The unreserved set of section 2.3 of RFC 3986: `A-Z a-z 0-9 - . _ ~`;
      it is also what Python (3.7 onwards) calls `_ALWAYS_SAFE`. */
  predicate Unreserved(c: char) {
    ('A' <= c <= 'Z') || ('a' <= c <= 'z') || ('0' <= c <= '9') || c == '-' || c == '.' || c == '_' || c == '~'
  }

  /** A byte that `quote(_, safe)` writes as itself: an ASCII byte that is
      unreserved or listed in `safe` (`safe` is reduced to its ASCII part). */
  predicate Kept(b: byte, safe: set<char>) {
    b < 0x80 && (Unreserved(b as char) || b as char in safe)
  }

  /** An upper-case hexadecimal digit. */
  function HexDigit(d: int): (c: char)
    requires 0 <= d < 16
    ensures ('0' <= c <= '9') || ('A' <= c <= 'F')
  {
    if d < 10 then (0x30 + d) as char else (0x41 + d - 10) as char
  }

  /** The value of a hexadecimal digit of either case. */
  function HexValue(c: char): (r: Option<int>)
    ensures r.Some? ==> 0 <= r.value < 16
  {
    if '0' <= c <= '9' then Some(c as int - 0x30)
    else if 'A' <= c <= 'F' then Some(c as int - 0x41 + 10)
    else if 'a' <= c <= 'f' then Some(c as int - 0x61 + 10)
    else None
  }

  lemma HexValueDigit(d: int)
    requires 0 <= d < 16
    ensures HexValue(HexDigit(d)) == Some(d)
  {
  }

  function QuoteByte(b: byte, safe: set<char>): string {
    if Kept(b, safe) then [b as char] else ['%', HexDigit(b / 16), HexDigit(b % 16)]
  }

  /** A kept byte stands for itself; any other becomes `%` and two upper-case digits whose value is the byte. */
  lemma QuoteByteForm(b: byte, safe: set<char>)
    ensures Kept(b, safe) ==> QuoteByte(b, safe) == [b as char]
    ensures !Kept(b, safe) ==>
      var q := QuoteByte(b, safe);
      |q| == 3 && q[0] == '%' && ('0' <= q[1] <= '9' || 'A' <= q[1] <= 'F') && ('0' <= q[2] <= '9' || 'A' <= q[2] <= 'F') &&
      HexValue(q[1]).Some? && HexValue(q[2]).Some? && HexValue(q[1]).value * 16 + HexValue(q[2]).value == b
  {
    HexValueDigit(b / 16);
    HexValueDigit(b % 16);
  }

  /** `urllib.parse.quote_from_bytes(bs, safe)` */
  function QuoteBytes(bs: seq<byte>, safe: set<char>): (r: string)
    ensures |r| >= |bs|
    ensures forall c :: c in r ==> Unreserved(c) || c == '%' || c in safe
  {
    if |bs| == 0 then "" else QuoteByte(bs[0], safe) + QuoteBytes(bs[1..], safe)
  }

  /** `urllib.parse.quote(s, safe)` for a `str` argument (UTF-8, strict errors). */
  function Quote(s: string, safe: set<char>): (r: string)
    ensures |r| >= |s|
    ensures forall c :: c in r ==> Unreserved(c) || c == '%' || c in safe
  {
    QuoteBytes(Utf8.Encode(s), safe)
  }

  lemma QuoteBytesAppend(a: seq<byte>, b: seq<byte>, safe: set<char>)
    ensures QuoteBytes(a + b, safe) == QuoteBytes(a, safe) + QuoteBytes(b, safe)
  {
    if |a| == 0 {
      assert a + b == b;
    } else {
      assert (a + b)[0] == a[0] && (a + b)[1..] == a[1..] + b;
      QuoteBytesAppend(a[1..], b, safe);
    }
  }

  /** `quote(s, safe='~')` and `quote(s, safe='')` coincide, because `~` is
      always kept; the urlencode step and the base string use the first form,
      the launch URL and the signing key the second. */
  lemma {:induction false} QuoteTildeIsQuote(bs: seq<byte>)
    ensures QuoteBytes(bs, {'~'}) == QuoteBytes(bs, {})
  {
    if |bs| > 0 {
      assert Kept(bs[0], {'~'}) == Kept(bs[0], {});
      QuoteTildeIsQuote(bs[1..]);
    }
  }

  /** The encoding of section 3.6 of RFC 5849 uses only unreserved characters and `%`. */
  lemma QuoteCharset(s: string)
    ensures forall c :: c in Quote(s, {}) ==> Unreserved(c) || c == '%'
    ensures forall c :: c in Quote(s, {'~'}) ==> Unreserved(c) || c == '%'
  {
    QuoteTildeIsQuote(Utf8.Encode(s));
  }

  /** `quote(s, safe='')` returns `s` itself exactly when every character of `s` is unreserved. */
  lemma {:induction false} QuoteUnchangedIff(s: string)
    ensures Quote(s, {}) == s <==> forall i :: 0 <= i < |s| ==> Unreserved(s[i])
  {
    if |s| > 0 {
      var c, t := s[0], s[1..];
      assert s == [c] + t;
      var e := Utf8.EncodeChar(c);
      assert Utf8.Encode(s) == e + Utf8.Encode(t);
      QuoteBytesAppend(e, Utf8.Encode(t), {});
      assert Quote(s, {}) == QuoteBytes(e, {}) + Quote(t, {});
      QuoteUnchangedIff(t);
      if Unreserved(c) {
        assert e == [c as int];
        assert QuoteBytes(e, {}) == [c];
        assert (forall i :: 0 <= i < |s| ==> Unreserved(s[i])) <==> (forall i :: 0 <= i < |t| ==> Unreserved(t[i])) by {
          forall i | 0 <= i < |t| ensures s[i + 1] == t[i] { }
        }
      } else {
        assert QuoteBytes(e, {})[0] == '%';
        if c == '%' {
          assert e == [0x25];
          assert QuoteBytes(e, {}) == "%25";
          assert |Quote(s, {})| == |Quote(t, {})| + 3 > |s|;
        }
        assert Quote(s, {}) != s;
      }
    }
  }

  /**
    Percent-decoding: `%` with two hexadecimal digits gives that byte, an
    unreserved character gives its own byte, anything else is rejected.
   */
  function PercentDecode(s: string): Option<seq<byte>>
    decreases |s|
  {
    if |s| == 0 then Some([])
    else if s[0] == '%' then
      if |s| < 3 then None
      else match (HexValue(s[1]), HexValue(s[2]))
        case (Some(hi), Some(lo)) =>
          (match PercentDecode(s[3..])
           case None => None
           case Some(rest) => Some([hi * 16 + lo] + rest))
        case _ => None
    else if Unreserved(s[0]) then
      match PercentDecode(s[1..])
      case None => None
      case Some(rest) => Some([s[0] as int] + rest)
    else None
  }

  /** Percent-decoding inverts `quote_from_bytes(_, safe='')`: no byte is lost. */
  lemma {:induction false} PercentDecodeQuoteBytes(bs: seq<byte>)
    ensures PercentDecode(QuoteBytes(bs, {})) == Some(bs)
  {
    if |bs| > 0 {
      var b := bs[0];
      var q := QuoteBytes(bs, {});
      var tail := QuoteBytes(bs[1..], {});
      assert q == QuoteByte(b, {}) + tail;
      PercentDecodeQuoteBytes(bs[1..]);
      if Kept(b, {}) {
        assert q[0] == b as char && q[1..] == tail;
      } else {
        HexValueDigit(b / 16);
        HexValueDigit(b % 16);
        assert q[0] == '%' && q[1] == HexDigit(b / 16) && q[2] == HexDigit(b % 16) && q[3..] == tail;
      }
      assert [b] + bs[1..] == bs;
    }
  }

  /** `urllib.parse.unquote` in strict form: percent-decoding, then UTF-8 decoding. */
  function Unquote(s: string): Option<string> {
    match PercentDecode(s)
    case None => None
    case Some(bs) => Utf8.Decode(bs)
  }

  /** The encoding is a lossless round trip, with either `safe` argument. */
  lemma UnquoteQuote(s: string)
    ensures Unquote(Quote(s, {})) == Some(s)
    ensures Unquote(Quote(s, {'~'})) == Some(s)
  {
    PercentDecodeQuoteBytes(Utf8.Encode(s));
    Utf8.DecodeEncode(s);
    QuoteTildeIsQuote(Utf8.Encode(s));
  }

  /** Distinct strings have distinct encodings. */
  lemma QuoteInjective(s: string, t: string)
    requires Quote(s, {}) == Quote(t, {})
    ensures s == t
  {
    UnquoteQuote(s);
    UnquoteQuote(t);
  }

  lemma QuoteAppend(a: string, b: string, safe: set<char>)
    ensures Quote(a + b, safe) == Quote(a, safe) + Quote(b, safe)
  {
    Utf8.EncodeAppend(a, b);
    QuoteBytesAppend(Utf8.Encode(a), Utf8.Encode(b), safe);
  }

  lemma EncodeNonBreakingHyphen()
    ensures Utf8.Encode("\U{2011}") == [0xE2, 0x80, 0x91]
  {
    var cp := 0x2011;
    assert cp / 0x1000 == 2 && cp / 0x40 % 0x40 == 0 && cp % 0x40 == 0x11;
    assert Utf8.EncodeChar('\U{2011}') == [0xE2, 0x80, 0x91];
  }

  lemma QuoteHyphenBytes()
    ensures QuoteBytes([0xE2, 0x80, 0x91], {}) == "%E2%80%91"
  {
    assert QuoteByte(0x91, {}) == "%91";
    assert QuoteByte(0x80, {}) == "%80";
    assert QuoteByte(0xE2, {}) == "%E2";
    assert [0xE2, 0x80, 0x91][1..] == [0x80, 0x91];
    assert [0x80, 0x91][1..] == [0x91];
  }

  lemma QuoteUnreservedLiteral(s: string)
    requires forall i :: 0 <= i < |s| ==> Unreserved(s[i])
    ensures Quote(s, {}) == s
  {
    QuoteUnchangedIff(s);
  }

  /** A U+2011 between two unreserved runs is escaped as its three UTF-8 bytes. */
  lemma QuoteAroundHyphen(word: string, digits: string)
    requires forall i :: 0 <= i < |word| ==> Unreserved(word[i])
    requires forall i :: 0 <= i < |digits| ==> Unreserved(digits[i])
    ensures Quote(word + "\U{2011}" + digits, {}) == word + "%E2%80%91" + digits
  {
    var hyphen := "\U{2011}";
    QuoteAppend(word + hyphen, digits, {});
    QuoteAppend(word, hyphen, {});
    QuoteUnreservedLiteral(word);
    QuoteUnreservedLiteral(digits);
    EncodeNonBreakingHyphen();
    QuoteHyphenBytes();
  }

  /** The non-ASCII hyphen of the launch's context id `course‑123` (U+2011) is escaped as its three UTF-8 bytes. */
  lemma QuoteNonBreakingHyphen(contextId: string)
    requires contextId == "course\U{2011}123"
    ensures Quote(contextId, {}) == "course%E2%80%91123"
  {
    assert contextId == "course" + "\U{2011}" + "123";
    QuoteAroundHyphen("course", "123");
  }
}
