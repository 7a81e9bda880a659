# Page fetcher: a Dafny model

This project models the decision-and-string layer of the allOrigins page
fetcher (`app/get-page.js`). The fetcher takes a page request made of a URL,
a format, a request method and an optional charset, and does five things:

1. It reads the `DOMAIN_MAPPINGS` configuration, a comma-separated list of
   `domain:ip[:port]` entries, into a table from hostname to `{ip, port}`.
2. It rewrites a URL whose hostname is in the table to
   `http://ip[:port]` followed by the original path and query.
3. It routes the request to one of three result shapes: metadata (`info`, or any
   `HEAD` request), the raw body (`raw`), or decoded contents (everything else).
4. It makes one HTTP request. Decompression is off only for raw requests.
   A `HEAD` request reads no body. A known charset decodes the body.
5. It shapes the answer. It also normalises client errors: an error without
   a response becomes `{contents: null, status: {error}}`, and an error with a
   response becomes the same shape as a contents success.

The HTTP client and the charset library are collaborators. Each enters the
model as a function-valued parameter: `Http.Client` and `Http.Codecs`. The URL
enters already parsed into its text as the caller gave it, hostname, pathname and search. Node's
`Buffer.byteLength` is modelled exactly as the length of the UTF-8 encoding.
`buf.toString()` is modelled exactly on well-formed UTF-8, by a decoder proved
inverse to the encoder in both directions. Malformed UTF-8 is left to the
`lossyUtf8` collaborator.

Modules:

- `Optional`: `Option`, standing for `undefined`/`null` next to a value.
- `Strings`: `split`/join with a one-character separator, and decimal digit strings.
- `Utf8`: the UTF-8 encoder and the well-formed decoder.
- `DomainMappings`: the entry parser, the table (the `reduce`), the URL
  rewrite, and the as-written object lookup behind the finding below.
- `Http`: the collaborator interface. It covers the client outcome, the
  request options and the codecs.
- `PageFetch`: dispatch, the request step, content processing, the three
  shapers, the error normaliser and the entry point `GetPage`.
- `PageFetchProperties`: lemmas relating these operations, and worked scenarios.

A missing ip is `undefined` (`parts[1]` of an entry without a colon), and the
URL template at line 32 prints it as `undefined`; see `DomainMappings.IpText`.
A missing port is `null` and is left out of the URL.

## Model

| member | source | states |
|---|---|---|
| Strings.Split | app/get-page.js:7 | `split` on one character gives at least one piece, no piece holds the separator, and joining the pieces with it gives back the input |
| Strings.SplitJoin | app/get-page.js:11 | splitting a join of separator-free parts gives the same parts back, so a split is the unique inverse of the join |
| Strings.SplitCons | app/get-page.js:11 | a separator-free piece followed by the separator splits off as the first piece, whatever follows |
| Strings.DecimalRoundTrip | app/get-page.js:55 | a decimal rendering reads back as the number it renders |
| DomainMappings.ParseEntry | app/get-page.js:11-15 | the domain is the entry's text up to its first colon and holds no colon; the ip is absent exactly when the entry has no colon; a port is present only with an ip |
| DomainMappings.AddEntry | app/get-page.js:9-16 | an empty entry leaves the table alone; any other entry adds or overwrites exactly its domain's row with its parsed mapping, and every other row keeps its value |
| DomainMappings.BuildTable | app/get-page.js:6-18 | an unset or empty configuration builds the empty table; a single non-empty entry builds the one-row table for its parse |
| DomainMappings.EmptyConfig | app/get-page.js:6-9 | an absent or empty configuration builds the empty table |
| DomainMappings.TableKeys | app/get-page.js:8-17 | a domain is in the table exactly when some non-empty entry has it as its first colon-separated segment |
| DomainMappings.LastEntryWins | app/get-page.js:8-15 | the last entry naming a domain decides its mapping; later entries for other domains and empty entries leave it alone |
| DomainMappings.EmptyEntrySkipped | app/get-page.js:9 | an empty entry, as from `a:1.1.1.1,,`, anywhere in the list leaves the table unchanged |
| DomainMappings.ParseEntryText | app/get-page.js:11-15 | `domain:ip` reads as that domain and ip with a null port; `domain:ip:port` reads as all three |
| DomainMappings.ParseEntryIgnoresExtra | app/get-page.js:11-15 | in `domain:ip:port:rest`, whatever follows the third colon, colons included, is ignored |
| DomainMappings.ParseEntryWithoutColon | app/get-page.js:11-15 | an entry without a colon is stored under its whole text with an absent ip and a null port |
| DomainMappings.ConfigLookup | app/get-page.js:6-18 | reading a configuration string back gives a table whose keys are exactly its domains, each sent where its last route says |
| DomainMappings.SingleEntryTable | app/get-page.js:6-18 | a configuration of one `domain:ip:port` entry builds the one-row table for it |
| DomainMappings.IpText | app/get-page.js:32 | the template prints a present ip as itself and an absent one as `undefined` |
| DomainMappings.PortSuffix | app/get-page.js:33 | the port suffix is empty exactly when the port is null or empty, and is otherwise `:` followed by the port |
| DomainMappings.MappedUrl | app/get-page.js:32-34 | the mapped URL starts with `http://` followed by the ip text, ends with the original path and query, and is exactly as long as those pieces plus the port suffix |
| DomainMappings.MappedUrlPort | app/get-page.js:32-34 | what lies between the ip and the path in a mapped URL is exactly the port suffix, so the URL is scheme, ip, port suffix, path and query with nothing else |
| DomainMappings.EffectiveUrl | app/get-page.js:24-37 | an unmapped hostname keeps the URL unchanged; a mapped one gives an `http://` URL that ends in the original path and query |
| DomainMappings.MappedUrlParts | app/get-page.js:32-34 | reading a mapped URL back gives the scheme `http`, an authority that is the ip plus `:port` exactly when the port is non-empty, and the original path and query |
| DomainMappings.NoConfigNoRewrite | app/get-page.js:6 | with no configuration no URL is rewritten |
| DomainMappings.ExampleRewrite | app/get-page.js:24-35 | `a.example.com:10.0.0.5:8080` sends `http://a.example.com/foo?x=1` to `http://10.0.0.5:8080/foo?x=1` |
| DomainMappings.LookupAsWritten | app/get-page.js:24 | the object lookup as written finds something exactly when the hostname is in the table or is an inherited `Object.prototype` member name; it returns the table's entry when there is one, and otherwise the inherited member, which has neither ip nor port |
| DomainMappings.EffectiveUrlAsWritten | app/get-page.js:24-35 | the rewrite as written agrees with `EffectiveUrl` on every hostname in the table or outside the inherited member names, and sends an inherited member name not in the table to `http://undefined` followed by the original path and query |
| DomainMappings.ConstructorHostRewritten | app/get-page.js:24-35 | with no configuration, the as-written rewrite sends `http://constructor/x` to `http://undefined/x`; the corrected rewrite leaves it alone |
| DomainMappings.ProtoHostRewritten | app/get-page.js:24-35 | with no configuration, the as-written rewrite sends `http://__proto__/x` (the lookup returns `Object.prototype`) to `http://undefined/x`; the corrected rewrite leaves it alone |
| Http.Header | app/get-page.js:54 | a header lookup finds a value exactly when the header is present, and that value is the header's |
| PageFetch.Dispatch | app/get-page.js:39-45 | routes to metadata iff the format is `info` or the method is `HEAD`, to raw iff the format is `raw` and the method is not `HEAD`, and to contents otherwise |
| PageFetch.OptionsFor | app/get-page.js:101-104 | the request options carry the caller's method unchanged, and ask for decompression exactly when the request is not raw |
| PageFetch.ProcessContent | app/get-page.js:115-121 | the body is decoded iff a non-empty charset is given and known to the library; otherwise the content is the body byte for byte |
| PageFetch.Request | app/get-page.js:99-113 | a client failure is returned and never raised; a `HEAD` request has no content and every other request has the processed body |
| PageFetch.ByteLength | app/get-page.js:70 | a buffer's length is its byte count; a string's length is the byte count of its UTF-8 encoding (the encoding `Utf8.DecodeEncode` and `Utf8.EncodeDecode` pin down), which lies between its character count and four times that |
| PageFetch.BufferToString | app/get-page.js:89 | well-formed UTF-8 reads as the text it encodes, and that text encodes back to the same bytes |
| PageFetch.ContentToString | app/get-page.js:89 | decoded text is returned as is; a well-formed UTF-8 buffer reads as the text whose encoding it is |
| PageFetch.ToNumber | app/get-page.js:55 | a header text is a finite number exactly when it is all decimal digits, and then it is the digits' value; the empty text is 0 |
| PageFetch.InfoContentLength | app/get-page.js:55 | the header's number when it is a nonzero number; -1 when the header is missing, not numeric, or 0 |
| PageFetchProperties.InfoLengthOfDecimal | app/get-page.js:55 | a positive length written as a header reads back as itself, and `0` reads as -1 |
| PageFetchProperties.InfoReportsHeaderLength | app/get-page.js:39-55 | a metadata request answered with a `content-length` of n > 0 reports length n |
| PageFetch.ProcessError | app/get-page.js:123-139 | an error without a response becomes a transport failure holding the error; one with a response becomes a contents result with the response's URL, status, content type and body length |
| PageFetch.GetPageInfo | app/get-page.js:48-58 | metadata is returned exactly when the `HEAD` request is answered; a thrown error becomes `ProcessError`'s result; an answer reports the URL asked for, the response's `content-type` header and status, and the `content-length` header read as a number (-1 when absent, non-numeric or 0); it never has a body |
| PageFetch.GetRawPage | app/get-page.js:60-76 | the raw body is returned exactly when the request without decompression is answered; a thrown error becomes `ProcessError`'s result; an answer gives the processed body as content, the response's `content-type` header, and the byte length of that content |
| PageFetch.GetPageContents | app/get-page.js:78-97 | a thrown error becomes `ProcessError`'s result; an answered request with decompression gives the processed body as a string, with the URL asked for, the response's `content-type` header and status, and the processed body's byte length |
| PageFetch.Plan | app/get-page.js:20-45 | the one request uses the URL rewritten by the own-key lookup (not the inherited-member lookup of line 24, see Findings), `HEAD` exactly for metadata and the caller's method otherwise, and decompression off exactly for raw |
| PageFetch.ResultOf | app/get-page.js:39-45 | an error is normalised the same way on every route, and an answered request takes its route's shape |
| PageFetch.GetPage | app/get-page.js:20-46 | the result is decided by the client's answer to the single planned call, shaped by the route; the URL is rewritten by the corrected own-key lookup, so hostnames `constructor` and `__proto__` are not rewritten as line 24 would |
| PageFetchProperties.ErrorLooksLikeSuccess | app/get-page.js:85-139 | for contents requests, an error carrying a response gives the same result as that response received as a success, provided no charset decoding applies (line 118 decodes a success but line 131 never decodes an error body) and the response's URL is the URL requested (line 91 reports the request URL, line 133 the response's) |
| PageFetchProperties.Utf8BodyRoundTrip | app/get-page.js:78-97 | a UTF-8 body fetched without a charset comes back as the text it encodes, with the encoding's byte length |
| PageFetchProperties.CharsetRoundTrip | app/get-page.js:115-121 | a body fetched with a known charset comes back as the library's decoding, with that text's UTF-8 byte length |
| PageFetchProperties.ContentsLengthIsEncodedLength | app/get-page.js:87 | when the contents are exact, the reported length is the UTF-8 byte length of the contents themselves |
| PageFetchProperties.RawLengthIgnoresHeader | app/get-page.js:70-74 | a raw result does not depend on the `content-length` header |
| PageFetchProperties.HeadGetsMetadata | app/get-page.js:39-40 | a `HEAD` request is sent as `HEAD` with decompression on, and returns metadata or a normalised error |
| PageFetchProperties.OnlyRawSkipsDecompression | app/get-page.js:101-104 | decompression is off exactly for raw, non-`HEAD` requests |
| PageFetchProperties.TransportFailureScenario | app/get-page.js:125 | a failure without a response comes back as `{contents: null, status: {error}}` with the error itself |
| PageFetchProperties.NotFoundScenario | app/get-page.js:123-139 | a 404 with body `not found` comes back as contents `not found`, status 404, type `text/plain`, length 9 |
| PageFetchProperties.MissingLengthScenario | app/get-page.js:55 | a `HEAD` response without `content-length` reports -1 |
| Utf8.DecodeEncode | app/get-page.js:131 | decoding the UTF-8 encoding of a string gives the string |
| Utf8.EncodeDecode | app/get-page.js:131 | whatever the decoder accepts, the encoder writes back byte for byte |
| Utf8.EncodedLengthBounds | app/get-page.js:87 | a string's UTF-8 length lies between its character count and four times that |
| Utf8.AsciiEncoding | app/get-page.js:128 | an ASCII string encodes to one byte per character, each byte being its code |

## Left out

- The HTTP call itself (`got`, line 106): timeouts, redirects, transport failures
  and decompression happen inside the client. The client is the `Client`
  parameter, and its answer is a response or an error.
- The `./http-client` module is not part of this model. The response body is
  taken to be bytes (a `Buffer`).
- `iconv-lite` (lines 117-118): `encodingExists` and `decode` are fields of the
  `Codecs` parameter.
- URL parsing (`new URL`, line 21), including hostname lowercasing and the
  exception for an invalid URL. The URL enters already parsed.
- Reading `process.env` (line 6). The configuration string is a parameter of
  `BuildTable`, and `None` stands for an unset variable.
- The `console.log` diagnostics (lines 26-36 and 61), and the async/Promise plumbing.
- `Buffer#toString` on malformed UTF-8 (the replacement characters): left to `Codecs.lossyUtf8`.
- PageFetch.ToNumber and PageFetch.InfoContentLength: JavaScript's `+` is modelled for decimal digit
  strings only. This is the whole grammar of an HTTP `Content-Length`
  (section 8.6 of RFC 9110). A value with a sign, whitespace, a fraction, an
  exponent or a hex prefix reads as not a number (-1), where JavaScript would
  coerce it. Numbers are unbounded, so there is no float rounding for huge values.
- Strings are sequences of Unicode scalar values. JavaScript strings holding
  lone UTF-16 surrogates, which `Buffer.byteLength` counts as three bytes
  each, are not represented.
- An error value that is itself falsy (`throw undefined`), which the
  `if (error)` tests would not catch, is not modelled: every `HttpError` is an object.
- PageFetch.GetRawPage and PageFetch.GetPageContents require a method other than
  `HEAD`. With `HEAD` the source would read an undefined content and throw.
  Dispatch never routes `HEAD` there.
- PageFetch.GetPage and PageFetch.Plan: rewrite with the own-key lookup of `EffectiveUrl`, the corrected
  behaviour from the finding below. For the hostnames `constructor` and `__proto__`
  (and the other inherited member names) with no entry of their own, they therefore
  differ from lines 24-35 as written, which the model keeps in `EffectiveUrlAsWritten`.
- DomainMappings.LookupAsWritten: a configuration entry for the domain
  `__proto__` replaces the table object's prototype instead of adding a key.
  After that, hostnames `ip` and `port` would also resolve through it. This
  is not modelled: such an entry is stored as an ordinary key.
- Results are records, not objects with an order of keys. The source builds the
  success status with keys in the order url, content_type, content_length,
  http_code (lines 90-95) and the error status in the order url, http_code,
  content_type, content_length (lines 132-137). That order shows when the
  result is serialised; the model does not keep it, so
  `PageFetchProperties.ErrorLooksLikeSuccess` equates results that serialise
  with their status keys in different orders.

## Findings

| source | as written | input that shows it | evidently intended | confidence | as-written member | corrected member |
|---|---|---|---|---|---|---|
| app/get-page.js:24-25 | `DOMAIN_MAPPINGS[urlObj.hostname]` looks a hostname up on a plain object, so it also finds members inherited from `Object.prototype`; `constructor` is truthy, so the URL is rewritten with `mapping.ip` undefined | configuration unset, URL `http://constructor/x`: fetched as `http://undefined/x` | only hostnames the configuration lists are remapped (an own-property lookup, or a `Map`/null-prototype object) | high, not executed | DomainMappings.ConstructorHostRewritten | DomainMappings.EffectiveUrl |
| app/get-page.js:24-25 | the same lookup with hostname `__proto__` reaches the `Object.prototype.__proto__` getter, which returns `Object.prototype` itself; that is truthy, so the URL is rewritten with `mapping.ip` undefined | configuration unset, URL `http://__proto__/x`: fetched as `http://undefined/x` | only hostnames the configuration lists are remapped | high, not executed | DomainMappings.ProtoHostRewritten | DomainMappings.EffectiveUrl |
