/**
  `build_lti_request` (google_assignments.py, lines 86-129): the LTI 1.1
  basic launch parameters and their OAuth 1.0 HMAC-SHA1 signature.

  The clock (`time.time()`), the nonce (`uuid.uuid4().hex`) and the keyed
  hash followed by base64 (`hmac.new(...)`, `base64.b64encode(...)`) are
  parameters: `now`, `nonce` and `sign(key, baseString)`.
 */
module LtiLaunch {
  import opened Wrappers
  import opened PyDict
  import opened PercentEncoding
  import opened OAuthSignature
  import StringOrder

  /** The tool's credentials and the platform's launch endpoint (lines 6-8). */
  datatype Tool = Tool(consumerKey: string, consumerSecret: string, launchUrl: string)

  /** The values the module configures. */
  const Configured: Tool := Tool("b574fd18-90ee-472d-8312-9b5965681eba", "M004mswcFA0E", "https://assignments.google.com/lti/a")

  /** The configured secret is unreserved, so the signing key is the secret itself followed by `&`. */
  lemma ConfiguredSigningKey()
    ensures SigningKey(Configured.consumerSecret) == "M004mswcFA0E&"
  {
    ConfiguredSecretUnreserved();
    UnreservedSigningKey(Configured.consumerSecret);
  }

  /** A secret written in unreserved characters is its own encoding, so its key is the secret and `&`. */
  lemma UnreservedSigningKey(secret: string)
    requires forall i :: 0 <= i < |secret| ==> Unreserved(secret[i])
    ensures SigningKey(secret) == secret + "&"
  {
    QuoteUnreservedLiteral(secret);
  }

  lemma ConfiguredSecretUnreserved()
    ensures forall i :: 0 <= i < |Configured.consumerSecret| ==> Unreserved(Configured.consumerSecret[i])
  {
  }

  /** The name under which the signature is added after signing. */
  const SignatureName: string := "oauth_signature"

  // ---------------------------------------------------------------------
  // str(int(time.time()))
  // ---------------------------------------------------------------------

  /** `int(x)` on a float: truncation toward zero. */
  function Truncate(x: real): (n: int)
    ensures x >= 0.0 ==> n as real <= x < n as real + 1.0
    ensures x < 0.0 ==> n as real - 1.0 < x <= n as real
  {
    if x >= 0.0 then x.Floor else -((-x).Floor)
  }

  function DigitChar(d: int): (c: char)
    requires 0 <= d < 10
    ensures '0' <= c <= '9'
  {
    (0x30 + d) as char
  }

  /** The decimal digits of `n`, most significant first, with no leading zero. */
  function Digits(n: nat): (s: string)
    ensures |s| > 0 && forall i :: 0 <= i < |s| ==> '0' <= s[i] <= '9'
    ensures |s| > 1 ==> s[0] != '0'
  {
    if n < 10 then [DigitChar(n)] else Digits(n / 10) + [DigitChar(n % 10)]
  }

  /** `str(n)` on an int. */
  function DecimalString(n: int): string {
    if n < 0 then "-" + Digits(-n) else Digits(n)
  }

  /** Reads a run of decimal digits back as a number. */
  function ParseDigits(s: string): int
    requires forall i :: 0 <= i < |s| ==> '0' <= s[i] <= '9'
  {
    if |s| == 0 then 0 else ParseDigits(s[..|s| - 1]) * 10 + (s[|s| - 1] as int - 0x30)
  }

  lemma {:induction false} ParseDigitsOf(n: nat)
    ensures ParseDigits(Digits(n)) == n
  {
    if n >= 10 {
      var s := Digits(n);
      assert s[..|s| - 1] == Digits(n / 10);
      ParseDigitsOf(n / 10);
    }
  }

  /** `str(n)` reads back as `n`: an optional minus sign, then the digits of `|n|`. */
  lemma DecimalStringRoundTrip(n: int)
    ensures var s := DecimalString(n);
      |s| > 0 && (if s[0] == '-' then n < 0 && ParseDigits(s[1..]) == -n else ParseDigits(s) == n)
  {
    var s := DecimalString(n);
    if n < 0 {
      ParseDigitsOf(-n);
      assert s[1..] == Digits(-n);
    } else {
      ParseDigitsOf(n);
    }
  }

  /** `str(n)` is written in unreserved characters, so percent-encoding leaves it as it is. */
  lemma DecimalStringUnreserved(n: int)
    ensures Quote(DecimalString(n), {}) == DecimalString(n)
  {
    var s := DecimalString(n);
    if n < 0 {
      var digits := Digits(-n);
      assert forall i :: 1 <= i < |s| ==> s[i] == digits[i - 1];
    }
    assert forall i :: 0 <= i < |s| ==> Unreserved(s[i]);
    QuoteUnchangedIff(s);
  }

  // ---------------------------------------------------------------------
  // The launch
  // ---------------------------------------------------------------------

  /** The parameter dict of lines 96-112, in its insertion order. */
  function LaunchParams(tool: Tool, userId: string, roles: string, contextId: string, resourceLinkId: string,
                        now: real, nonce: string): (params: Dict)
    ensures |params| == 15
  {
    [ ("lti_version", "LTI-1p0"),
      ("lti_message_type", "basic-lti-launch-request"),
      ("resource_link_id", resourceLinkId),
      ("user_id", userId),
      ("roles", roles),
      ("context_id", contextId),
      ("oauth_consumer_key", tool.consumerKey),
      ("oauth_signature_method", "HMAC-SHA1"),
      ("oauth_timestamp", DecimalString(Truncate(now))),
      ("oauth_nonce", nonce),
      ("oauth_version", "1.0"),
      ("context_title", "Intro to Psychology"),
      ("context_label", "PSY101"),
      ("lis_result_sourcedid", "abc123"),
      ("lis_outcome_service_url", "https://assignments.google.com/lti/outcome_service") ]
  }

  /** The fifteen names are distinct and none of them is the signature's. */
  lemma LaunchNames(tool: Tool, userId: string, roles: string, contextId: string, resourceLinkId: string, now: real, nonce: string)
    ensures var params := LaunchParams(tool, userId, roles, contextId, resourceLinkId, now, nonce);
      DistinctKeys(params) && SignatureName !in Keys(params)
  {
  }

  /** The names of the LTI launch itself are unreserved. */
  lemma UnreservedLtiName(name: string)
    requires name in {"lti_version", "lti_message_type", "resource_link_id", "user_id", "roles", "context_id"}
    ensures forall i :: 0 <= i < |name| ==> Unreserved(name[i])
  {
  }

  /** The names of the OAuth protocol parameters are unreserved. */
  lemma UnreservedOAuthName(name: string)
    requires name in {"oauth_consumer_key", "oauth_signature_method", "oauth_timestamp", "oauth_nonce", "oauth_version"}
    ensures forall i :: 0 <= i < |name| ==> Unreserved(name[i])
  {
  }

  /** The names of the course context and the grade outcome service are unreserved. */
  lemma UnreservedCourseName(name: string)
    requires name in {"context_title", "context_label", "lis_result_sourcedid", "lis_outcome_service_url"}
    ensures forall i :: 0 <= i < |name| ==> Unreserved(name[i])
  {
  }

  /** Each of the fifteen names is written in unreserved characters. */
  lemma LaunchNamesUnreserved(tool: Tool, userId: string, roles: string, contextId: string, resourceLinkId: string, now: real, nonce: string)
    ensures var params := LaunchParams(tool, userId, roles, contextId, resourceLinkId, now, nonce);
      forall p, i :: p in params && 0 <= i < |p.0| ==> Unreserved(p.0[i])
  {
    var params := LaunchParams(tool, userId, roles, contextId, resourceLinkId, now, nonce);
    forall j | 0 <= j < |params| ensures forall i :: 0 <= i < |params[j].0| ==> Unreserved(params[j].0[i]) {
      if j < 6 {
        UnreservedLtiName(params[j].0);
      } else if j < 11 {
        UnreservedOAuthName(params[j].0);
      } else {
        UnreservedCourseName(params[j].0);
      }
    }
    forall p, i | p in params && 0 <= i < |p.0| ensures Unreserved(p.0[i]) {
      var j :| 0 <= j < |params| && params[j] == p;
    }
  }

  /**
    Lines 114-127 for any parameter dict: normalise, build the base string
    and the key, sign, and add `oauth_signature` to the same dict.
   */
  function Signed(params: Dict, url: string, secret: string, sign: (string, string) -> string): (r: Dict)
    requires DistinctKeys(params) && SignatureName !in Keys(params)
    ensures DistinctKeys(r)
    ensures |r| == |params| + 1 && r[..|params|] == params
    ensures r[|params|] == (SignatureName, sign(SigningKey(secret), BaseString(url, Normalize(params))))
  {
    var encoded := Normalize(params);
    var baseString := BaseString(url, encoded);
    var signingKey := SigningKey(secret);
    var r := PyDict.Set(params, SignatureName, sign(signingKey, baseString));
    assert r[..|params|] == params;
    r
  }

  /** `build_lti_request(user_id, roles, context_id, resource_link_id)` */
  function BuildLtiRequest(tool: Tool, userId: string, roles: string, contextId: string, resourceLinkId: string,
                           now: real, nonce: string, sign: (string, string) -> string): (r: Dict)
    ensures DistinctKeys(r)
    ensures |r| == 16
    ensures r[..15] == LaunchParams(tool, userId, roles, contextId, resourceLinkId, now, nonce)
  {
    LaunchNames(tool, userId, roles, contextId, resourceLinkId, now, nonce);
    Signed(LaunchParams(tool, userId, roles, contextId, resourceLinkId, now, nonce), tool.launchUrl, tool.consumerSecret, sign)
  }

  /**
    `oauth_signature` is computed before it is added, so it is not among the
    signed parameters: a provider that removes it from the signed dict and
    signs the rest obtains the same value. No other entry changes.
   */
  lemma SignedLeavesSignatureOut(params: Dict, url: string, secret: string, sign: (string, string) -> string)
    requires DistinctKeys(params) && SignatureName !in Keys(params)
    ensures var r := Signed(params, url, secret, sign);
      && Remove(r, SignatureName) == params
      && Get(r, SignatureName) == Some(sign(SigningKey(secret), BaseString(url, Normalize(Remove(r, SignatureName)))))
      && Keys(r) == Keys(params) + {SignatureName}
      && forall k :: k != SignatureName ==> Get(r, k) == Get(params, k)
  {
    var r := Signed(params, url, secret, sign);
    assert r == params + [r[|params|]];
    RemoveAppended(params, SignatureName, r[|params|].1);
    GetItem(r, |params|);
    assert Keys(r) == Keys(params) + {SignatureName} by {
      assert r == PyDict.Set(params, SignatureName, r[|params|].1);
    }
    forall k | k != SignatureName ensures Get(r, k) == Get(params, k) {
      GetSet(params, SignatureName, r[|params|].1, k);
    }
  }

  /** The same for the launch: the signature covers exactly the fifteen launch parameters. */
  lemma SignatureCoversTheOtherParameters(tool: Tool, userId: string, roles: string, contextId: string, resourceLinkId: string,
                                          now: real, nonce: string, sign: (string, string) -> string)
    ensures var r := BuildLtiRequest(tool, userId, roles, contextId, resourceLinkId, now, nonce, sign);
      var params := LaunchParams(tool, userId, roles, contextId, resourceLinkId, now, nonce);
      && Remove(r, SignatureName) == params
      && Get(r, SignatureName) == Some(sign(SigningKey(tool.consumerSecret), BaseString(tool.launchUrl, Normalize(Remove(r, SignatureName)))))
      && Keys(r) == Keys(params) + {SignatureName}
      && forall k :: k != SignatureName ==> Get(r, k) == Get(params, k)
  {
    LaunchNames(tool, userId, roles, contextId, resourceLinkId, now, nonce);
    SignedLeavesSignatureOut(LaunchParams(tool, userId, roles, contextId, resourceLinkId, now, nonce), tool.launchUrl, tool.consumerSecret, sign);
  }

  /**
    The fixed protocol fields, and the caller's arguments, the clock and the
    nonce copied unchanged; by SignatureCoversTheOtherParameters the signed
    launch looks them up to the same values.
   */
  lemma LaunchFields(tool: Tool, userId: string, roles: string, contextId: string, resourceLinkId: string,
                           now: real, nonce: string)
    ensures var params := LaunchParams(tool, userId, roles, contextId, resourceLinkId, now, nonce);
      && Get(params, "lti_version") == Some("LTI-1p0")
      && Get(params, "lti_message_type") == Some("basic-lti-launch-request")
      && Get(params, "oauth_signature_method") == Some("HMAC-SHA1")
      && Get(params, "oauth_version") == Some("1.0")
      && Get(params, "oauth_consumer_key") == Some(tool.consumerKey)
      && Get(params, "user_id") == Some(userId)
      && Get(params, "roles") == Some(roles)
      && Get(params, "context_id") == Some(contextId)
      && Get(params, "resource_link_id") == Some(resourceLinkId)
      && Get(params, "oauth_timestamp") == Some(DecimalString(Truncate(now)))
      && Get(params, "oauth_nonce") == Some(nonce)
  {
    var params := LaunchParams(tool, userId, roles, contextId, resourceLinkId, now, nonce);
    LaunchNames(tool, userId, roles, contextId, resourceLinkId, now, nonce);
    GetItem(params, 0);
    GetItem(params, 1);
    GetItem(params, 2);
    GetItem(params, 3);
    GetItem(params, 4);
    GetItem(params, 5);
    GetItem(params, 6);
    GetItem(params, 7);
    GetItem(params, 8);
    GetItem(params, 9);
    GetItem(params, 10);
  }

  /**
    The launch's normalised string lists its fifteen parameters once each,
    in ascending name order; since every name is unreserved, that is also
    the order of the encoded names (OAuthSignature.SortedByEncodedName).
   */
  lemma LaunchNormalization(tool: Tool, userId: string, roles: string, contextId: string, resourceLinkId: string,
                            now: real, nonce: string)
    ensures var params := LaunchParams(tool, userId, roles, contextId, resourceLinkId, now, nonce);
      var ps := SortByName(params);
      && ParseNormalized(Normalize(params)) == Some(ps)
      && SortedByName(ps) && multiset(ps) == multiset(params)
  {
    LaunchNames(tool, userId, roles, contextId, resourceLinkId, now, nonce);
    NormalizeDecodes(LaunchParams(tool, userId, roles, contextId, resourceLinkId, now, nonce));
  }
}
