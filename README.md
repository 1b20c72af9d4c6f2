# LTI launch signing and the aster plot, modelled in Dafny

This project models two small, separate pieces of deterministic logic from one
repository.

**LTI 1.1 launch signing** (`build_lti_request` in `google_assignments.py`).
The function assembles the fifteen LTI launch parameters. It then computes the
OAuth 1.0 signature inputs:

- the normalised parameter string: names and values percent-encoded, pairs
  sorted by name, and the result joined as `k=v&k=v…`;
- the signature base string `POST&enc(URL)&enc(normalised)`
  (section 3.4.1 of RFC 5849);
- the signing key `enc(secret)&` (section 3.4.2 of RFC 5849).

Finally it stores `oauth_signature` into the dictionary. The model contains:

- Python's `urllib.parse.quote`, byte-exact over the UTF-8 encoding of the
  string (`Utf8`, `PercentEncoding`);
- Python's code-point string order (`StringOrder`);
- an insertion-ordered dictionary (`PyDict`);
- the normaliser, base string and signing key (`OAuthSignature`);
- the launch itself (`LtiLaunch`).

HMAC-SHA1 followed by base64 is a caller-supplied function
`sign(key, baseString)`. The clock and the UUID nonce are parameters.

**The aster plot** (`create` and `updateAsync` in `hello_world.js`).

- `AsterGeometry` is the pure layout: option defaulting with JavaScript `||`
  semantics, the row mapping, the angles of `d3.pie().value(1).sort(null)`,
  the arc radii and the label anchor.
  - Angles are fractions of a turn, clockwise from twelve o'clock.
  - Numbers are reals plus `NaN`.
  - A label position is polar: (angle, distance from the centre).
- `AsterPlot` is the widget: a class holding the shown errors and the drawing
  surface's contents, and a `Tooltip` class whose fields the mouse handlers
  update.

## Model

| member | source | states |
|---|---|---|
| Utf8.Encode | google_assignments.py:115-125 | `s.encode("utf-8")`, the first step of every `quote` call: each character's one to four bytes in order, never shorter than the string. Utf8.DecodeEncode inverts it |
| Utf8.DecodeEncode | google_assignments.py:115-125 | Strict UTF-8 decoding of the bytes `quote` encodes returns the original string, for every string |
| Utf8.EncodeInjective | google_assignments.py:115-125 | Distinct strings have distinct UTF-8 encodings |
| Utf8.DecodeFirstEncodeChar | google_assignments.py:115-125 | Each character's 1-4 byte UTF-8 sequence decodes back to that character, consuming exactly its own bytes |
| PercentEncoding.QuoteBytes | google_assignments.py:117-118 | `quote_from_bytes(bs, safe)`: one encoded unit per byte, so never shorter than the bytes, and every character unreserved, `%` or in `safe`. QuoteByteForm gives each unit and PercentDecodeQuoteBytes inverts it |
| PercentEncoding.Quote | google_assignments.py:115-125 | `quote(s, safe)` for a `str`: never shorter than `s`, and every character unreserved, `%` or in `safe`. UnquoteQuote inverts it, and QuoteUnchangedIff says when it is the identity |
| PercentEncoding.QuoteByteForm | google_assignments.py:117-118 | A byte that is ASCII-unreserved or in `safe` is written as itself. Any other byte is written as `%` and two upper-case hex digits whose value is that byte |
| PercentEncoding.QuoteCharset | google_assignments.py:117-118 | Every character of `quote(s, safe='')` and of `quote(s, safe='~')` is unreserved (`A-Z a-z 0-9 - . _ ~`) or `%` |
| PercentEncoding.QuoteUnchangedIff | google_assignments.py:118 | `quote(s, safe='')` equals `s` if and only if every character of `s` is unreserved |
| PercentEncoding.QuoteTildeIsQuote | google_assignments.py:118 | `safe='~'` and `safe=''` give the same encoding, because `~` is always kept |
| PercentEncoding.PercentDecodeQuoteBytes | google_assignments.py:115-122 | Percent-decoding the encoding of any byte sequence returns those bytes |
| PercentEncoding.UnquoteQuote | google_assignments.py:115-122 | Percent-decoding then UTF-8 decoding returns the original string, with either `safe` argument |
| PercentEncoding.QuoteInjective | google_assignments.py:122 | Two strings with the same encoding are equal |
| PercentEncoding.QuoteAppend | google_assignments.py:115-122 | The encoding of a concatenation is the concatenation of the encodings |
| PercentEncoding.QuoteNonBreakingHyphen | google_assignments.py:51 | The context id `course‑123` (with U+2011) encodes to `course%E2%80%91123`: one character, three escapes |
| StringOrder.Less | google_assignments.py:116 | Python's `<` on `str`: a proper prefix sorts first, and nothing sorts before the empty string. LessIrreflexive, LessTransitive, LessTotal and LessAsymmetric make it a strict total order |
| StringOrder.LessIrreflexive | google_assignments.py:116 | No string sorts before itself |
| StringOrder.LessTransitive | google_assignments.py:116 | Python's string order is transitive |
| StringOrder.LessTotal | google_assignments.py:116 | Of two different strings, one sorts before the other |
| StringOrder.LessAsymmetric | google_assignments.py:116 | No two strings each sort before the other |
| OAuthSignature.SortByName | google_assignments.py:116 | `sorted(params.items())` holds exactly the items of the dict, as a multiset |
| OAuthSignature.SortByNameSorted | google_assignments.py:116 | With distinct names, the sorted items are in strictly ascending name order and are a permutation of the dict's items |
| OAuthSignature.SortedUnique | google_assignments.py:116 | Two strictly sorted sequences with the same elements are equal, so the order `sorted` produces is the only one possible |
| OAuthSignature.SplitJoin | google_assignments.py:115-119 | Splitting at `&` a join of fields without `&` gives those fields back |
| OAuthSignature.UrlEncode | google_assignments.py:115-119 | `urlencode(pairs, quote_via=quote, safe='~')`: fields `quote(k)=quote(v)` joined by `&`. FieldSeparators, UrlEncodeSeparators and NormalizeDecodes state its shape |
| OAuthSignature.FieldSeparators | google_assignments.py:115-119 | One `enc(name)=enc(value)` field holds no `&` and exactly one `=` |
| OAuthSignature.UrlEncodeSeparators | google_assignments.py:115-119 | The encoding of `n` pairs holds exactly `n` `=` and `n − 1` `&`: each pair appears once, `&`-joined |
| OAuthSignature.Normalize | google_assignments.py:115-119 | The normalised string `urlencode(sorted(params.items()), …)`. NormalizeDecodes, NormalizeOrderIndependent and SortedByEncodedName state its properties |
| OAuthSignature.NormalizeDecodes | google_assignments.py:115-119 | The normalised string parses back to the dict's items in ascending name order. Each item appears exactly once as `enc(name)=enc(value)` |
| OAuthSignature.NormalizeOrderIndependent | google_assignments.py:116 | Two dicts holding the same (name, value) pairs in any insertion order give the same normalised string |
| OAuthSignature.SortedByEncodedName | google_assignments.py:115-119 | When every name is unreserved, the sorted items are also in ascending order of their encoded names (section 3.4.1.3.2 of RFC 5849) |
| OAuthSignature.BaseString | google_assignments.py:122 | `"POST&" + quote(url, safe='') + "&" + quote(normalised, safe='~')`. BaseStringFields states its field structure |
| OAuthSignature.BaseStringFields | google_assignments.py:122 | The base string splits at `&` into exactly `POST`, `enc(url)` and `enc(normalised)`, and so holds exactly two `&`. Both encoded parts decode back |
| OAuthSignature.SigningKey | google_assignments.py:125 | `quote(secret, safe='') + "&"`. SigningKeyShape states its shape |
| OAuthSignature.SigningKeyShape | google_assignments.py:125 | The signing key ends in its only `&`, and the part before it decodes to the consumer secret |
| PyDict.IndexOf | google_assignments.py:127 | The index of the first item with the key, or the length exactly when the key is absent |
| PyDict.Get | google_assignments.py:96-112 | Looking a key up succeeds exactly when the key is present |
| PyDict.GetItem | google_assignments.py:96-112 | In a dict with distinct keys, looking up the key of item `i` gives that item's value |
| PyDict.Set | google_assignments.py:127 | `d[k] = v` adds `k` to the keys. It appends when `k` is absent and replaces in place when `k` is present. It keeps every other item and preserves distinct keys |
| PyDict.GetSet | google_assignments.py:127 | After `d[k] = v`, `d[k]` is `v` and every other key's lookup is unchanged |
| PyDict.Remove | google_assignments.py:127 | Removing a key leaves it absent and keeps exactly the other items |
| PyDict.RemoveAppended | google_assignments.py:127 | Removing a freshly appended key gives back the original dict |
| LtiLaunch.Truncate | google_assignments.py:105 | `int(x)` truncates toward zero: the largest integer not above `x` when `x ≥ 0`, and the smallest not below it when `x < 0` |
| LtiLaunch.DecimalString | google_assignments.py:105 | `str(n)` on an int. DecimalStringRoundTrip and DecimalStringUnreserved state its properties |
| LtiLaunch.DecimalStringRoundTrip | google_assignments.py:105 | `str(int(time.time()))` is a non-empty decimal numeral that parses back to the integer |
| LtiLaunch.DecimalStringUnreserved | google_assignments.py:105 | The timestamp's decimal form is left unchanged by the encoding |
| LtiLaunch.LaunchParams | google_assignments.py:96-112 | The launch dict has fifteen items |
| LtiLaunch.LaunchNames | google_assignments.py:96-112 | The fifteen names are distinct, and `oauth_signature` is not among them |
| LtiLaunch.LaunchNamesUnreserved | google_assignments.py:96-112 | Every character of every launch parameter name is unreserved |
| LtiLaunch.UnreservedSigningKey | google_assignments.py:125 | A secret written in unreserved characters gives the key `secret + "&"` |
| LtiLaunch.ConfiguredSigningKey | google_assignments.py:7 | With the configured `CONSUMER_SECRET`, the signing key is `M004mswcFA0E&` |
| LtiLaunch.LaunchFields | google_assignments.py:96-112 | `lti_version`, `lti_message_type`, `oauth_signature_method` and `oauth_version` hold `LTI-1p0`, `basic-lti-launch-request`, `HMAC-SHA1` and `1.0`. The four caller arguments, the consumer key, the truncated timestamp and the nonce are copied unchanged |
| LtiLaunch.LaunchNormalization | google_assignments.py:115-119 | The launch's normalised string parses back to its items, sorted by name, as a permutation of the dict |
| LtiLaunch.Signed | google_assignments.py:114-129 | The result is the parameters followed by one new item: `oauth_signature` with the signature of the base string of the parameters as they were before the insertion. Keys stay distinct |
| LtiLaunch.SignedLeavesSignatureOut | google_assignments.py:114-129 | Removing `oauth_signature` from the result gives back the signed parameters. The stored signature is the one over the normalised string of exactly those. The keys gain only `oauth_signature`, and every other lookup is unchanged |
| LtiLaunch.BuildLtiRequest | google_assignments.py:86-129 | The returned dict has sixteen distinct keys, and its first fifteen items are the launch parameters unchanged |
| LtiLaunch.SignatureCoversTheOtherParameters | google_assignments.py:86-129 | In the returned dict, `oauth_signature` signs the normalisation of all the other items and of nothing else |
| AsterGeometry.OrDefault | hello_world.js:60-61 | `x \|\| d`: the option when it is a number other than 0, and otherwise (absent, 0, NaN) the default |
| AsterGeometry.MinRadius | hello_world.js:60 | `minRadius` is the option when truthy, and otherwise 30 |
| AsterGeometry.MaxRadius | hello_world.js:59-61 | `maxRadius` is the option when truthy, and otherwise `min(width, height)/2 − 20` |
| AsterGeometry.Color | hello_world.js:62 | The fill is the option when non-empty, and otherwise `#4CAF50`. It is never empty |
| AsterGeometry.ZeroFallsBack | hello_world.js:59-61 | Options that are absent, 0 or NaN all give the defaults 30 and `min(width, height)/2 − 20` |
| AsterGeometry.PlotData | hello_world.js:87-90 | One datum per row, in row order, with the dimension cell's text as label and the number of the measure cell's text as value |
| AsterGeometry.PieFrom | hello_world.js:79-81 | The pie's accumulation loop from element `from`: one arc per remaining element, in order, each of weight 1. PieFromAt gives each arc |
| AsterGeometry.Pie | hello_world.js:79-81 | `pie(plotData)` with `value(1)` and `sort(null)`: one arc per datum. PieArcs, PieSpans, PieContiguous and PiePartition state its angles |
| AsterGeometry.PieArcs | hello_world.js:79-94 | Arc `i` of the pie is row `i`'s datum, with index `i`, weight 1, and span `[i/n, (i+1)/n)` of a turn |
| AsterGeometry.PieSpans | hello_world.js:79-81 | Every one of the `n` arcs spans exactly `1/n` of a turn |
| AsterGeometry.PieIgnoresValues | hello_world.js:79-81 | Two data sets with the same number of rows get the same angles, whatever their values |
| AsterGeometry.PieContiguous | hello_world.js:79-81 | The first arc starts at 0, each arc starts where the previous one ends, and the last one ends at a full turn |
| AsterGeometry.PiePartition | hello_world.js:79-81 | Every angle in `[0, 1)` of a turn lies in exactly one arc |
| AsterGeometry.Scale | hello_world.js:77 | The linear map of `[0, 100]` onto `[minRadius, maxRadius]`: 0 gives `minRadius`, 100 gives `maxRadius`, and NaN stays NaN |
| AsterGeometry.OuterRadius | hello_world.js:75-77 | The corrected outer radius `minRadius + (maxRadius − minRadius)·value/100` of the slice's measure. It is a number exactly when the measure is, and meets both endpoints |
| AsterGeometry.OuterRadiusBounds | hello_world.js:75-77 | With `minRadius ≤ maxRadius` and a measure in `[0, 100]`, the outer radius lies in `[minRadius, maxRadius]` |
| AsterGeometry.OuterRadiusMonotone | hello_world.js:75-77 | With `minRadius ≤ maxRadius`, a larger measure never gives a smaller outer radius |
| AsterGeometry.OuterRadiusAsWritten | hello_world.js:77 | The radius as the code writes it, from the arc's own `value`; it is always a number |
| AsterGeometry.OuterRadiusFrom | hello_world.js:77 | The outer radius read from the pie weight, as written, or from the measure, as intended |
| AsterGeometry.AsWrittenIgnoresMeasure | hello_world.js:77-80 | As written, every slice's outer radius is `minRadius + (maxRadius − minRadius)/100`, whatever its measure |
| AsterGeometry.AsWrittenCounterexample | hello_world.js:77 | For one row of measure 50 with radii 30 and 100, the code as written gives 30.7 where the intended radius is 65 |
| AsterGeometry.LabelAnchor | hello_world.js:114-118 | The label sits on the slice's mid-angle at distance `maxRadius + 15`, or opposite it when the centroid radius is negative. There is no position exactly when the centroid radius is 0 or NaN |
| AsterGeometry.LabelIgnoresValue | hello_world.js:114-118 | Two slices with the same angles and positive centroid radii get the same label position, whatever their values |
| AsterGeometry.DrawSlice | hello_world.js:99-123 | The path and text of one arc: inner radius `minRadius`, the chosen outer radius, the colour, the label, and the label anchor of that radius. LayoutSlices, LayoutLabels and DrawSliceAsWritten state the drawn values |
| AsterGeometry.DrawSlices | hello_world.js:93-97 | One slice per arc, in arc order |
| AsterGeometry.Layout | hello_world.js:57-123 | For either radius source, the chart has the element's size, is centred at `(width/2, height/2)`, and has one slice per row |
| AsterGeometry.LayoutSlices | hello_world.js:75-123 | Slice `i` has row `i`'s label and datum and the angles `[i/n, (i+1)/n)`. Its inner radius is `minRadius` and its fill is the colour. Its outer radius is the scale of its measure, or of the pie weight 1 as line 77 is written |
| AsterGeometry.LayoutLabels | hello_world.js:114-118 | For either radius source, when slice `i`'s centroid radius is positive, its label is at angle `(2i+1)/(2n)` of a turn and distance `maxRadius + 15` |
| AsterGeometry.DrawSliceAsWritten | hello_world.js:77-118 | With the pie weight 1, an arc's outer radius is `minRadius + (maxRadius − minRadius)/100`, whatever its measure. Its label is placed exactly when that common centroid is not the centre |
| AsterGeometry.LayoutAsWritten | hello_world.js:57-123 | The chart line 77 draws: every slice has the outer radius `minRadius + (maxRadius − minRadius)/100`, NaN measures included. Every label sits at its mid-angle `(2i+1)/(2n)`, at `maxRadius + 15` when the centroid is positive, unless that centroid is the centre |
| AsterPlot.TooltipHtml | hello_world.js:105 | The tooltip is `<strong>`, the label, `</strong><br>`, the rendered value and `%`, each at its exact position |
| AsterPlot.Tooltip.constructor | hello_world.js:42-44 | A new tooltip is hidden, empty and unpositioned |
| AsterPlot.AsterPlot.Create | hello_world.js:21-45 | After `create`: no errors, a blank surface, and a fresh hidden tooltip |
| AsterPlot.AsterPlot.UpdateAsync | hello_world.js:46-126 | The errors are cleared first. Without a dimension or a measure, the only error is "Missing Fields", the surface is untouched and `done` is not called. Otherwise the surface holds exactly this update's layout, drawn from the measure, and `done` is called |
| AsterPlot.AsterPlot.MouseOver | hello_world.js:102-108 | The tooltip becomes visible with the slice's label and value, at `(pageX, pageY − 28)` |
| AsterPlot.AsterPlot.MouseOut | hello_world.js:109-111 | The tooltip is hidden, and its content and position are unchanged |
| AsterPlot.UpdateAfterMissingFields | hello_world.js:47-55 | A valid update after a rejected one leaves no error and draws one slice per row |

## Left out

- The Flask routes, `request`/`session`, the auto-submitting HTML form and
  `print` in `google_assignments.py` (lines 1-81) are presentation and I/O.
- `send_grade` and `grade` (`google_assignments.py`, lines 131-182) call code
  that is not defined in the repository and use outbound HTTP.
- HMAC-SHA1 and base64 (lines 126-127) are library calls, modelled as the
  `sign(key, baseString)` parameter. That includes the `.encode()` of key and
  base string: both are ASCII, because both are built from encoded parts.
- `time.time()` and `uuid.uuid4().hex` (lines 105-106) are nondeterministic.
  They are the parameters `now` and `nonce`.
- `urllib.parse.quote` is modelled as in Python 3.7 and later, where `~` is
  always safe.
- `LtiLaunch.LaunchFields`: it is stated on the fifteen launch parameters. The
  signed dict agrees with them through
  `LtiLaunch.SignatureCoversTheOtherParameters`.
- `LtiLaunch.LaunchNormalization`: it does not itself restate the name order
  of the encoded names. That order follows from
  `OAuthSignature.SortedByEncodedName` with `LtiLaunch.LaunchNamesUnreserved`.
- `LtiLaunch.BuildLtiRequest`: its own contract does not state the signature
  item. `LtiLaunch.SignatureCoversTheOtherParameters` states it.
- The d3 selections, DOM, SVG path strings and CSS of `hello_world.js` are
  rendering. The chart is modelled by its contents (size, centre, slices with
  angles, radii, fill, text and label anchor). The `px` suffixes of the
  tooltip position are left out.
- Trigonometry, `Math.sqrt` and IEEE floating point (lines 116-117) are
  replaced by exact reals.
  - Label positions are given in polar form.
  - `±Infinity` is not modelled: a number is a real or NaN.
- `LookerCharts.Utils.textForCell` and the unary `+` conversion are the
  row's cell text and the `toNumber` parameter. JavaScript's number-to-string
  conversion in the tooltip is the `render` parameter.
- `looker.plugins.visualizations.add` and the `options` declaration (lines
  1-20) are host registration.
- The model follows the code as written:
  - the outer radius maps the fixed domain `[0, 100]`;
  - the "Missing Fields" path neither calls `done` nor clears a previous
    drawing;
  - updates do not reset the tooltip, so a tooltip shown for an earlier
    drawing keeps its content.

- `AsterPlot.AsterPlot.UpdateAsync`: it draws with the corrected outer radius
  of the Findings row (the measure), not with the pie weight that line 77
  reads. So do `AsterGeometry.Layout`, `AsterGeometry.LayoutSlices` and
  `AsterGeometry.LayoutLabels` when given `Measure`. The chart the code as
  written draws is the same `Layout` given `PieWeight`, which
  `AsterGeometry.LayoutAsWritten` describes.

## Findings

| source | as written | input that shows it | evidently intended | confidence | as-written member | corrected member |
|---|---|---|---|---|---|---|
| hello_world.js:77 | The outer radius uses `d.value`. For a `d3.pie().value(1)` arc this is the pie weight 1, not the row's measure, so every slice gets the same radius `minRadius + (maxRadius − minRadius)/100` | One row with measure 50, `minRadius` 30, `maxRadius` 100: radius 30.7 instead of 65 | `d.data.value`, the measure, which the tooltip on line 105 already uses | not executed | AsterGeometry.AsWrittenCounterexample | AsterGeometry.OuterRadius |
