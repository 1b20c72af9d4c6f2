/**
  The OAuth 1.0 signing steps of an LTI 1.1 launch (google_assignments.py,
  lines 114-125): parameter normalisation (section 3.4.1.3.2 of RFC 5849),
  the signature base string (section 3.4.1.1) and the HMAC-SHA1 signing key
  (section 3.4.2).
 */
module OAuthSignature {
  import opened Wrappers
  import opened PyDict
  import opened StringOrder
  import opened PercentEncoding

  // ---------------------------------------------------------------------
  // sorted(params.items())
  // ---------------------------------------------------------------------

  /** Names strictly ascending, so no name occurs twice. */
  predicate SortedByName(ps: seq<Pair>) {
    forall i, j :: 0 <= i < j < |ps| ==> Less(ps[i].0, ps[j].0)
  }

  /** Places `p` before the first pair whose name is not below its own. */
  function Insert(p: Pair, s: seq<Pair>): (r: seq<Pair>)
    ensures multiset(r) == multiset(s) + multiset{p}
  {
    if |s| == 0 then [p]
    else if Less(s[0].0, p.0) then
      assert s == [s[0]] + s[1..];
      [s[0]] + Insert(p, s[1..])
    else [p] + s
  }

  /** `sorted(d.items())`; the names are distinct, so the tuple order is the order of the names. */
  function SortByName(d: Dict): (r: seq<Pair>)
    ensures multiset(r) == multiset(d)
  {
    if |d| == 0 then []
    else
      assert d == [d[0]] + d[1..];
      Insert(d[0], SortByName(d[1..]))
  }

  lemma {:induction false} InsertSorted(p: Pair, s: seq<Pair>)
    requires SortedByName(s)
    requires forall q :: q in s ==> q.0 != p.0
    ensures SortedByName(Insert(p, s))
  {
    if |s| > 0 {
      if Less(s[0].0, p.0) {
        var t := s[1..];
        SortedTail(s);
        InsertSorted(p, t);
        var r := Insert(p, t);
        forall j | 0 <= j < |r| ensures Less(s[0].0, r[j].0) {
          assert r[j] in multiset(r);
          if r[j] != p {
            assert r[j] in multiset(t);
            var k :| 0 <= k < |t| && t[k] == r[j];
            assert t[k] == s[k + 1];
          }
        }
        SortedPrepend(s[0], r);
      } else {
        assert s[0] in s;
        LessTotal(s[0].0, p.0);
        forall j | 0 <= j < |s| ensures Less(p.0, s[j].0) {
          if j > 0 {
            LessTransitive(p.0, s[0].0, s[j].0);
          }
        }
        SortedPrepend(p, s);
      }
    }
  }

  /** A pair whose name is below every name of a sorted sequence can go in front of it. */
  lemma SortedPrepend(p: Pair, s: seq<Pair>)
    requires SortedByName(s)
    requires forall j :: 0 <= j < |s| ==> Less(p.0, s[j].0)
    ensures SortedByName([p] + s)
  {
    var out := [p] + s;
    forall i, j | 0 <= i < j < |out| ensures Less(out[i].0, out[j].0) {
      if i == 0 {
        assert out[j] == s[j - 1];
      } else {
        assert out[i] == s[i - 1] && out[j] == s[j - 1];
      }
    }
  }

  /** The sorted items of a dict are in strictly ascending name order. */
  lemma {:induction false} SortByNameSorted(d: Dict)
    requires DistinctKeys(d)
    ensures SortedByName(SortByName(d))
  {
    if |d| > 0 {
      var t := d[1..];
      assert DistinctKeys(t) by {
        forall i, j | 0 <= i < j < |t| ensures t[i].0 != t[j].0 {
          assert t[i] == d[i + 1] && t[j] == d[j + 1];
        }
      }
      SortByNameSorted(t);
      forall q | q in SortByName(t) ensures q.0 != d[0].0 {
        assert q in multiset(SortByName(t));
        assert q in multiset(t);
        var k :| 0 <= k < |t| && t[k] == q;
        assert t[k] == d[k + 1];
      }
      InsertSorted(d[0], SortByName(t));
    }
  }

  lemma SortedTail(s: seq<Pair>)
    requires SortedByName(s) && |s| > 0
    ensures SortedByName(s[1..])
    ensures forall p :: p in s[1..] <==> p in s && p != s[0]
  {
    forall i, j | 0 <= i < j < |s| - 1 ensures Less(s[1..][i].0, s[1..][j].0) {
      assert s[1..][i] == s[i + 1] && s[1..][j] == s[j + 1];
    }
    forall p | p in s[1..] ensures p != s[0] {
      var k :| 0 <= k < |s| - 1 && s[1..][k] == p;
      assert s[k + 1] == p;
      LessIrreflexive(s[0].0);
    }
    assert s == [s[0]] + s[1..];
  }

  /** Two name-sorted sequences holding the same pairs are the same sequence. */
  lemma {:induction false} SortedUnique(s: seq<Pair>, t: seq<Pair>)
    requires SortedByName(s) && SortedByName(t)
    requires forall p :: p in s <==> p in t
    ensures s == t
  {
    if |s| == 0 {
      forall p ensures multiset(t)[p] == 0 {
        assert p in t <==> p in multiset(t);
      }
      assert multiset(t) == multiset{};
      assert |t| == |multiset(t)| == 0;
    } else {
      assert s[0] in s;
      assert |t| > 0;
      assert t[0] in t;
      if s[0] != t[0] {
        var i :| 0 <= i < |s| && s[i] == t[0];
        var j :| 0 <= j < |t| && t[j] == s[0];
        assert i > 0 && j > 0;
        assert Less(s[0].0, t[0].0) && Less(t[0].0, s[0].0);
        LessAsymmetric(s[0].0, t[0].0);
      }
      SortedTail(s);
      SortedTail(t);
      SortedUnique(s[1..], t[1..]);
      assert s == [s[0]] + s[1..] && t == [t[0]] + t[1..];
    }
  }

  // ---------------------------------------------------------------------
  // '&'.join(...) and its inverse
  // ---------------------------------------------------------------------

  /** `sep.join(parts)` */
  function Join(parts: seq<string>, sep: char): string {
    if |parts| == 0 then ""
    else if |parts| == 1 then parts[0]
    else parts[0] + [sep] + Join(parts[1..], sep)
  }

  /** `s.split(sep)` */
  function Split(s: string, sep: char): (r: seq<string>)
    ensures |r| > 0
  {
    if |s| == 0 then [""]
    else if s[0] == sep then [""] + Split(s[1..], sep)
    else
      var t := Split(s[1..], sep);
      [[s[0]] + t[0]] + t[1..]
  }

  /** The number of occurrences of `c` in `s`. */
  function Occurrences(s: string, c: char): nat {
    if |s| == 0 then 0 else (if s[0] == c then 1 else 0) + Occurrences(s[1..], c)
  }

  lemma {:induction false} OccurrencesAppend(a: string, b: string, c: char)
    ensures Occurrences(a + b, c) == Occurrences(a, c) + Occurrences(b, c)
  {
    if |a| == 0 {
      assert a + b == b;
    } else {
      assert (a + b)[0] == a[0] && (a + b)[1..] == a[1..] + b;
      OccurrencesAppend(a[1..], b, c);
    }
  }

  lemma {:induction false} OccurrencesAbsent(s: string, c: char)
    requires c !in s
    ensures Occurrences(s, c) == 0
  {
    if |s| > 0 {
      assert forall x :: x in s[1..] ==> x in s;
      OccurrencesAbsent(s[1..], c);
    }
  }

  lemma {:induction false} SplitNoSeparator(a: string, sep: char)
    requires sep !in a
    ensures Split(a, sep) == [a]
  {
    if |a| > 0 {
      assert forall x :: x in a[1..] ==> x in a;
      SplitNoSeparator(a[1..], sep);
      assert [a[0]] + a[1..] == a;
    }
  }

  lemma {:induction false} SplitAtSeparator(a: string, sep: char, rest: string)
    requires sep !in a
    ensures Split(a + [sep] + rest, sep) == [a] + Split(rest, sep)
  {
    var s := a + [sep] + rest;
    if |a| == 0 {
      assert s[0] == sep && s[1..] == rest;
    } else {
      assert forall x :: x in a[1..] ==> x in a;
      assert s[0] == a[0] && s[1..] == a[1..] + [sep] + rest;
      SplitAtSeparator(a[1..], sep, rest);
      assert [a[0]] + a[1..] == a;
    }
  }

  /** Splitting a join recovers the parts when no part holds the separator. */
  lemma {:induction false} SplitJoin(parts: seq<string>, sep: char)
    requires |parts| > 0
    requires forall i :: 0 <= i < |parts| ==> sep !in parts[i]
    ensures Split(Join(parts, sep), sep) == parts
  {
    if |parts| == 1 {
      SplitNoSeparator(parts[0], sep);
    } else {
      SplitJoin(parts[1..], sep);
      SplitAtSeparator(parts[0], sep, Join(parts[1..], sep));
      assert [parts[0]] + parts[1..] == parts;
    }
  }

  // ---------------------------------------------------------------------
  // urllib.parse.urlencode(pairs, quote_via=urllib.parse.quote, safe=safe)
  // ---------------------------------------------------------------------

  /** One `quote(k, safe) + '=' + quote(v, safe)` field. */
  function Field(p: Pair, safe: set<char>): string {
    Quote(p.0, safe) + "=" + Quote(p.1, safe)
  }

  function Fields(ps: seq<Pair>, safe: set<char>): (r: seq<string>)
    ensures |r| == |ps|
    ensures forall i :: 0 <= i < |ps| ==> r[i] == Field(ps[i], safe)
  {
    if |ps| == 0 then [] else [Field(ps[0], safe)] + Fields(ps[1..], safe)
  }

  /** `urlencode(pairs, quote_via=quote, safe=safe)` over a list of `str` pairs. */
  function UrlEncode(ps: seq<Pair>, safe: set<char>): string {
    Join(Fields(ps, safe), '&')
  }

  /** The normalised parameter string of section 3.4.1.3.2 of RFC 5849, as lines 115-119 build it. */
  function Normalize(params: Dict): string {
    UrlEncode(SortByName(params), {'~'})
  }

  // ---------------------------------------------------------------------
  // Reading a normalised string back
  // ---------------------------------------------------------------------

  /** Splits one `name=value` field at its only `=` and decodes both halves. */
  function ParseField(f: string): Option<Pair> {
    var halves := Split(f, '=');
    if |halves| != 2 then None
    else match (Unquote(halves[0]), Unquote(halves[1]))
      case (Some(k), Some(v)) => Some((k, v))
      case _ => None
  }

  function ParseFields(fs: seq<string>): Option<seq<Pair>> {
    if |fs| == 0 then Some([])
    else match (ParseField(fs[0]), ParseFields(fs[1..]))
      case (Some(p), Some(ps)) => Some([p] + ps)
      case _ => None
  }

  /** Reads a normalised parameter string back into its pairs, in the order written. */
  function ParseNormalized(s: string): Option<seq<Pair>> {
    if s == "" then Some([]) else ParseFields(Split(s, '&'))
  }

  lemma QuoteHasNoDelimiters(s: string)
    ensures '&' !in Quote(s, {'~'}) && '=' !in Quote(s, {'~'})
    ensures '&' !in Quote(s, {}) && '=' !in Quote(s, {})
  {
    QuoteCharset(s);
  }

  lemma ParseFieldOf(p: Pair)
    ensures ParseField(Field(p, {'~'})) == Some(p)
    ensures '&' !in Field(p, {'~'})
  {
    var k, v := Quote(p.0, {'~'}), Quote(p.1, {'~'});
    QuoteHasNoDelimiters(p.0);
    QuoteHasNoDelimiters(p.1);
    assert Field(p, {'~'}) == Join([k, v], '=');
    SplitJoin([k, v], '=');
    UnquoteQuote(p.0);
    UnquoteQuote(p.1);
  }

  lemma {:induction false} ParseFieldsOf(ps: seq<Pair>)
    ensures ParseFields(Fields(ps, {'~'})) == Some(ps)
  {
    if |ps| > 0 {
      ParseFieldOf(ps[0]);
      assert Fields(ps, {'~'})[1..] == Fields(ps[1..], {'~'});
      ParseFieldsOf(ps[1..]);
      assert [ps[0]] + ps[1..] == ps;
    }
  }

  /** One field holds no `&` and exactly one `=`. */
  lemma FieldSeparators(p: Pair)
    ensures Occurrences(Field(p, {'~'}), '&') == 0 && Occurrences(Field(p, {'~'}), '=') == 1
  {
    var k, v := Quote(p.0, {'~'}), Quote(p.1, {'~'});
    QuoteHasNoDelimiters(p.0);
    QuoteHasNoDelimiters(p.1);
    assert Field(p, {'~'}) == (k + "=") + v;
    OccurrencesAppend(k + "=", v, '&');
    OccurrencesAppend(k + "=", v, '=');
    OccurrencesAppend(k, "=", '&');
    OccurrencesAppend(k, "=", '=');
    OccurrencesAbsent(k, '&');
    OccurrencesAbsent(k, '=');
    OccurrencesAbsent(v, '&');
    OccurrencesAbsent(v, '=');
  }

  /** `urlencode` writes each of `n` pairs once: `n` fields, so `n` `=` and `n - 1` `&` between them. */
  lemma {:induction false} UrlEncodeSeparators(ps: seq<Pair>)
    requires |ps| > 0
    ensures Occurrences(UrlEncode(ps, {'~'}), '&') == |ps| - 1
    ensures Occurrences(UrlEncode(ps, {'~'}), '=') == |ps|
  {
    FieldSeparators(ps[0]);
    var fs := Fields(ps, {'~'});
    if |ps| > 1 {
      assert fs[1..] == Fields(ps[1..], {'~'});
      UrlEncodeSeparators(ps[1..]);
      var rest := UrlEncode(ps[1..], {'~'});
      assert UrlEncode(ps, {'~'}) == fs[0] + ("&" + rest);
      OccurrencesAppend(fs[0], "&" + rest, '&');
      OccurrencesAppend(fs[0], "&" + rest, '=');
      OccurrencesAppend("&", rest, '&');
      OccurrencesAppend("&", rest, '=');
    }
  }

  /** A field is never empty: it holds at least its `=`. */
  lemma JoinFieldsNonEmpty(ps: seq<Pair>)
    requires |ps| > 0
    ensures UrlEncode(ps, {'~'}) != ""
  {
    var fs := Fields(ps, {'~'});
    assert |fs[0]| > 0;
    if |fs| > 1 {
      assert |Join(fs, '&')| >= |fs[0]|;
    }
  }

  /**
    The normalised string decodes to the sorted items of the dict: each
    parameter exactly once as `enc(name)=enc(value)`, in ascending name order.
   */
  lemma NormalizeDecodes(params: Dict)
    requires DistinctKeys(params)
    ensures ParseNormalized(Normalize(params)) == Some(SortByName(params))
    ensures SortedByName(SortByName(params))
    ensures multiset(SortByName(params)) == multiset(params)
  {
    var ps := SortByName(params);
    SortByNameSorted(params);
    if |ps| == 0 {
      assert Normalize(params) == "";
    } else {
      JoinFieldsNonEmpty(ps);
      var fs := Fields(ps, {'~'});
      forall i | 0 <= i < |fs| ensures '&' !in fs[i] {
        ParseFieldOf(ps[i]);
      }
      SplitJoin(fs, '&');
      ParseFieldsOf(ps);
    }
  }

  /** The normalised string depends only on which (name, value) pairs the dict holds, not on their insertion order. */
  lemma NormalizeOrderIndependent(d1: Dict, d2: Dict)
    requires DistinctKeys(d1) && DistinctKeys(d2)
    requires forall p :: p in d1 <==> p in d2
    ensures Normalize(d1) == Normalize(d2)
  {
    var s1, s2 := SortByName(d1), SortByName(d2);
    SortByNameSorted(d1);
    SortByNameSorted(d2);
    forall p ensures p in s1 <==> p in s2 {
      assert p in s1 <==> p in multiset(s1);
      assert p in s2 <==> p in multiset(s2);
      assert p in d1 <==> p in multiset(d1);
      assert p in d2 <==> p in multiset(d2);
    }
    SortedUnique(s1, s2);
  }

  /** When every name is made of unreserved characters, sorting by name is sorting by encoded name, as section 3.4.1.3.2 of RFC 5849 asks. */
  lemma SortedByEncodedName(params: Dict)
    requires DistinctKeys(params)
    requires forall p, i :: p in params && 0 <= i < |p.0| ==> Unreserved(p.0[i])
    ensures var ps := SortByName(params);
      forall i, j :: 0 <= i < j < |ps| ==> Less(Quote(ps[i].0, {'~'}), Quote(ps[j].0, {'~'}))
  {
    var ps := SortByName(params);
    SortByNameSorted(params);
    forall i | 0 <= i < |ps| ensures Quote(ps[i].0, {'~'}) == ps[i].0 {
      assert ps[i] in multiset(ps);
      assert ps[i] in params;
      QuoteUnchangedIff(ps[i].0);
      QuoteTildeIsQuote(Utf8.Encode(ps[i].0));
    }
  }

  // ---------------------------------------------------------------------
  // Base string and signing key
  // ---------------------------------------------------------------------

  /** `"POST&" + quote(url, safe='') + "&" + quote(normalized, safe='~')` (section 3.4.1.1 of RFC 5849). */
  function BaseString(url: string, normalized: string): string {
    "POST&" + Quote(url, {}) + "&" + Quote(normalized, {'~'})
  }

  /** Three fields free of `sep` joined by `sep` split back into those fields and hold exactly two `sep`. */
  lemma {:induction false} ThreeFields(a: string, b: string, c: string, sep: char)
    requires sep !in a && sep !in b && sep !in c
    ensures Split(a + [sep] + b + [sep] + c, sep) == [a, b, c]
    ensures Occurrences(a + [sep] + b + [sep] + c, sep) == 2
  {
    var s := a + [sep] + b + [sep] + c;
    assert s == Join([a, b, c], sep) by {
      assert [a, b, c][1..] == [b, c];
      assert Join([b, c], sep) == b + [sep] + c by { assert [b, c][1..] == [c]; }
    }
    SplitJoin([a, b, c], sep);
    assert s == a + ([sep] + (b + ([sep] + c)));
    OccurrencesAppend(a, [sep] + (b + ([sep] + c)), sep);
    OccurrencesAppend([sep], b + ([sep] + c), sep);
    OccurrencesAppend(b, [sep] + c, sep);
    OccurrencesAppend([sep], c, sep);
    OccurrencesAbsent(a, sep);
    OccurrencesAbsent(b, sep);
    OccurrencesAbsent(c, sep);
  }

  /**
    The base string is three `&`-separated fields: the method, the encoded
    URL and the encoded parameter string, each of which decodes back; it
    therefore holds exactly two literal `&`.
   */
  lemma BaseStringFields(url: string, normalized: string)
    ensures Split(BaseString(url, normalized), '&') == ["POST", Quote(url, {}), Quote(normalized, {'~'})]
    ensures Occurrences(BaseString(url, normalized), '&') == 2
    ensures Unquote(Quote(url, {})) == Some(url)
    ensures Unquote(Quote(normalized, {'~'})) == Some(normalized)
  {
    var u, n := Quote(url, {}), Quote(normalized, {'~'});
    QuoteHasNoDelimiters(url);
    QuoteHasNoDelimiters(normalized);
    var post := "POST";
    assert '&' !in post;
    assert BaseString(url, normalized) == post + ['&'] + u + ['&'] + n;
    ThreeFields(post, u, n, '&');
    UnquoteQuote(url);
    UnquoteQuote(normalized);
  }

  /** `quote(secret, safe='') + "&"`: the HMAC-SHA1 key with an empty token secret (section 3.4.2 of RFC 5849). */
  function SigningKey(secret: string): string {
    Quote(secret, {}) + "&"
  }

  /** The signing key ends in its only `&`, and what precedes it decodes to the consumer secret. */
  lemma SigningKeyShape(secret: string)
    ensures var key := SigningKey(secret);
      |key| > 0 && key[|key| - 1] == '&' && Occurrences(key, '&') == 1 && Unquote(key[..|key| - 1]) == Some(secret)
  {
    var q := Quote(secret, {});
    var key := SigningKey(secret);
    QuoteHasNoDelimiters(secret);
    OccurrencesAppend(q, "&", '&');
    OccurrencesAbsent(q, '&');
    assert key[..|key| - 1] == q;
    UnquoteQuote(secret);
  }
}
