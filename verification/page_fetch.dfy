/** The page fetcher: it rewrites a mapped hostname, picks one of three
    result shapes from the requested format and method, makes exactly one
    request, optionally decodes the body with a named character set, and
    folds client errors into the same shape as a contents result. */
module PageFetch {
  import opened Optional
  import opened Strings
  import opened Utf8
  import opened Http
  import opened DomainMappings

  /** What the caller asks for. Every field but the URL may be left out. */
  datatype PageRequest = PageRequest(
    url: Url,
    format: Option<string>,
    requestMethod: Option<string>,
    charset: Option<string>)

  /** The three result shapes a request can be routed to. */
  datatype Shaper = Info | Raw | Contents

  /** The route: metadata for `format = "info"` or any `HEAD` request, the
      raw body for `format = "raw"`, decoded contents for everything else.
      A `HEAD` request is routed to metadata whatever the format says. */
  function Dispatch(format: Option<string>, requestMethod: Option<string>): (s: Shaper)
    ensures s == Info <==> format == Some("info") || requestMethod == Some("HEAD")
    ensures s == Raw <==> format == Some("raw") && requestMethod != Some("HEAD")
    ensures s == Contents <==> format != Some("info") && format != Some("raw") && requestMethod != Some("HEAD")
  {
    if format == Some("info") || requestMethod == Some("HEAD") then Info
    else if format == Some("raw") then Raw
    else Contents
  }

  /** A body as handed back: the bytes as received, or text decoded from them. */
  datatype Content = Buffer(bytes: seq<byte>) | Decoded(text: string)

  /** The body is decoded only when a non-empty charset name is given and the library knows it. */
  predicate Decodes(codecs: Codecs, charset: Option<string>)
  {
    charset.Some? && charset.value != "" && codecs.encodingExists(charset.value)
  }

  /** The body of a response, decoded with `charset` when the library knows
      that charset and passed through byte for byte otherwise. */
  function ProcessContent(codecs: Codecs, response: Response, charset: Option<string>): (c: Content)
    ensures c.Decoded? <==> Decodes(codecs, charset)
    ensures c.Buffer? ==> c.bytes == response.body
    ensures c.Decoded? ==> c.text == codecs.decode(response.body, charset.value)
  {
    if Decodes(codecs, charset) then Decoded(codecs.decode(response.body, charset.value))
    else Buffer(response.body)
  }

  /** What the request step hands its caller: the response with its content
      (absent for `HEAD`), or the error the client raised. */
  datatype Fetched = Answered(response: Response, content: Option<Content>) | Failed(error: HttpError)

  /** The options for one request: decompression is switched off exactly for raw requests. */
  function OptionsFor(requestMethod: Option<string>, raw: bool): (o: RequestOptions)
    ensures o.decompress <==> !raw
    ensures o.httpMethod == requestMethod
  {
    RequestOptions(requestMethod, !raw)
  }

  /** One call of the client. A failure is caught and returned, never raised;
      a `HEAD` request returns the response alone without reading a body;
      any other request returns the processed body with it. */
  function Request(client: Client, codecs: Codecs, url: string, requestMethod: Option<string>,
                   raw: bool, charset: Option<string>): (f: Fetched)
    ensures f.Failed? <==> client(url, OptionsFor(requestMethod, raw)).Thrown?
    ensures f.Failed? ==> f.error == client(url, OptionsFor(requestMethod, raw)).error
    ensures f.Answered? ==> f.response == client(url, OptionsFor(requestMethod, raw)).response
    ensures f.Answered? ==> (f.content.None? <==> requestMethod == Some("HEAD"))
    ensures f.Answered? && f.content.Some? ==> f.content.value == ProcessContent(codecs, f.response, charset)
  {
    var options := OptionsFor(requestMethod, raw);
    match client(url, options)
    case Thrown(e) => Failed(e)
    case Received(response) =>
      if options.httpMethod == Some("HEAD") then Answered(response, None)
      else Answered(response, Some(ProcessContent(codecs, response, charset)))
  }

  /** `Buffer.byteLength(content)`: the number of bytes of a buffer, or of the
      UTF-8 encoding of a string, which is at least one and at most four per character. */
  function ByteLength(c: Content): (n: nat)
    ensures c.Buffer? ==> n == |c.bytes|
    ensures c.Decoded? ==> n == |Encode(c.text)|
    ensures c.Decoded? ==> |c.text| <= n <= 4 * |c.text|
  {
    match c
    case Buffer(bytes) => |bytes|
    case Decoded(text) =>
      EncodedLengthBounds(text);
      |Encode(text)|
  }

  /** `buf.toString()`: well-formed UTF-8 reads as the text it encodes, and
      that text encodes back to the same bytes; anything else is left to
      Node's lossy reading. */
  function BufferToString(codecs: Codecs, bytes: seq<byte>): (s: string)
    ensures Decode(bytes).Some? ==> s == Decode(bytes).value && Encode(s) == bytes
  {
    match Decode(bytes)
    case Some(text) =>
      EncodeDecode(bytes);
      text
    case None => codecs.lossyUtf8(bytes)
  }

  /** `content.toString()`: decoded text as it is, a buffer read as UTF-8. */
  function ContentToString(codecs: Codecs, c: Content): (s: string)
    ensures c.Decoded? ==> s == c.text
    ensures c.Buffer? && Decode(c.bytes).Some? ==> s == Decode(c.bytes).value && Encode(s) == c.bytes
  {
    match c
    case Buffer(bytes) => BufferToString(codecs, bytes)
    case Decoded(text) => text
  }

  /** A JavaScript number, as far as a header value can produce one. */
  datatype JsNumber = NaN | Finite(value: int)

  /** JavaScript's `+value` on a header value, for the decimal digit strings an
      HTTP `Content-Length` consists of: a digit string is its decimal value
      (the empty string reads as 0), anything else is not a number. */
  function ToNumber(s: string): (n: JsNumber)
    ensures n.Finite? <==> AllDigits(s)
    ensures n.Finite? ==> n.value == DigitsValue(s) && n.value >= 0
    ensures s == "" ==> n == Finite(0)
  {
    if AllDigits(s) then Finite(DigitsValue(s)) else NaN
  }

  /** `+header || -1`: the header's number when it is a number other than 0,
      and -1 when the header is missing, is not a number, or is 0. */
  function InfoContentLength(header: Option<string>): (n: int)
    ensures n == -1 || n > 0
    ensures n > 0 <==> header.Some? && AllDigits(header.value) && DigitsValue(header.value) != 0
    ensures n > 0 ==> n == DigitsValue(header.value)
  {
    var number := if header.Some? then ToNumber(header.value) else NaN;
    if number.Finite? && number.value != 0 then number.value else -1
  }

  /** The status part of a contents result. */
  datatype Status = Status(url: string, contentType: Option<string>, contentLength: int, httpCode: int)

  /** The result shapes: metadata, the raw body, decoded contents with status,
      and `{contents: null, status: {error}}` for a failure without a response. */
  datatype PageResult =
    | PageInfo(url: string, contentType: Option<string>, contentLength: int, httpCode: int)
    | RawPage(content: Content, contentType: Option<string>, contentLength: int)
    | PageContents(contents: string, status: Status)
    | TransportFailure(error: HttpError)

  /** An error without a response becomes a transport failure holding the
      error itself. An error with a response becomes a contents result built
      from that response: its URL, status code, content type, the body read
      as UTF-8 and the body's byte length. */
  function ProcessError(codecs: Codecs, e: HttpError): (r: PageResult)
    ensures r.TransportFailure? <==> e.response.None?
    ensures r.TransportFailure? ==> r.error == e
    ensures !r.TransportFailure? ==> r.PageContents?
    ensures r.PageContents? ==>
      var response := e.response.value;
      && r.status == Status(response.url, Header(response.headers, "content-type"), |response.body|, response.statusCode)
      && (Decode(response.body).Some? ==> Encode(r.contents) == response.body)
  {
    match e.response
    case None => TransportFailure(e)
    case Some(response) =>
      PageContents(
        BufferToString(codecs, response.body),
        Status(response.url, Header(response.headers, "content-type"), |response.body|, response.statusCode))
  }

  /** Metadata from a `HEAD` request: the URL asked for, the content type, the
      content length from the header (-1 when missing, not numeric or 0) and
      the status code. Errors go through the error normaliser. */
  function GetPageInfo(client: Client, codecs: Codecs, url: string): (r: PageResult)
    ensures !r.RawPage?
    ensures r.PageInfo? ==> r.url == url && (r.contentLength == -1 || r.contentLength > 0)
    ensures client(url, RequestOptions(Some("HEAD"), true)).Received? <==> r.PageInfo?
    ensures var o := client(url, RequestOptions(Some("HEAD"), true));
      && (o.Thrown? ==> r == ProcessError(codecs, o.error))
      && (o.Received? ==>
            && r.contentType == Header(o.response.headers, "content-type")
            && r.contentLength == InfoContentLength(Header(o.response.headers, "content-length"))
            && r.httpCode == o.response.statusCode)
  {
    match Request(client, codecs, url, Some("HEAD"), false, None)
    case Failed(e) => ProcessError(codecs, e)
    case Answered(response, _) =>
      PageInfo(
        url,
        Header(response.headers, "content-type"),
        InfoContentLength(Header(response.headers, "content-length")),
        response.statusCode)
  }

  /** The raw body, fetched without decompression and decoded only when the
      charset is known; its length is the byte length of what is returned,
      never the `content-length` header. */
  function GetRawPage(client: Client, codecs: Codecs, url: string, requestMethod: Option<string>,
                      charset: Option<string>): (r: PageResult)
    requires requestMethod != Some("HEAD")
    ensures !r.PageInfo?
    ensures r.RawPage? ==> r.contentLength == ByteLength(r.content)
    ensures client(url, RequestOptions(requestMethod, false)).Received? <==> r.RawPage?
    ensures var o := client(url, RequestOptions(requestMethod, false));
      && (o.Thrown? ==> r == ProcessError(codecs, o.error))
      && (o.Received? ==>
            && r.content == ProcessContent(codecs, o.response, charset)
            && r.contentType == Header(o.response.headers, "content-type"))
  {
    var fetched := Request(client, codecs, url, requestMethod, true, charset);
    if fetched.Failed? then ProcessError(codecs, fetched.error)
    else
      var content := fetched.content.value;
      RawPage(content, Header(fetched.response.headers, "content-type"), ByteLength(content))
  }

  /** Decoded contents with status, fetched with decompression. The status
      reports the URL asked for and the byte length of the returned content. */
  function GetPageContents(client: Client, codecs: Codecs, url: string, requestMethod: Option<string>,
                           charset: Option<string>): (r: PageResult)
    requires requestMethod != Some("HEAD")
    ensures !r.PageInfo? && !r.RawPage?
    ensures client(url, RequestOptions(requestMethod, true)).Received? ==>
      r.PageContents? && r.status.url == url
    ensures var o := client(url, RequestOptions(requestMethod, true));
      && (o.Thrown? ==> r == ProcessError(codecs, o.error))
      && (o.Received? ==>
            var content := ProcessContent(codecs, o.response, charset);
            && r.contents == ContentToString(codecs, content)
            && r.status.contentType == Header(o.response.headers, "content-type")
            && r.status.contentLength == ByteLength(content)
            && r.status.httpCode == o.response.statusCode)
  {
    var fetched := Request(client, codecs, url, requestMethod, false, charset);
    if fetched.Failed? then ProcessError(codecs, fetched.error)
    else
      var content := fetched.content.value;
      PageContents(
        ContentToString(codecs, content),
        Status(url, Header(fetched.response.headers, "content-type"), ByteLength(content),
               fetched.response.statusCode))
  }

  /** The one client call a page request makes. */
  datatype Call = Call(url: string, options: RequestOptions)

  /** The call a request leads to: the rewritten URL; `HEAD` for metadata and
      the caller's method otherwise; decompression off exactly for raw. */
  function Plan(table: map<string, Mapping>, req: PageRequest): (c: Call)
    ensures c.url == EffectiveUrl(table, req.url)
    ensures c.options.decompress <==> Dispatch(req.format, req.requestMethod) != Raw
    ensures c.options.httpMethod == Some("HEAD") <==> Dispatch(req.format, req.requestMethod) == Info
    ensures Dispatch(req.format, req.requestMethod) != Info ==> c.options.httpMethod == req.requestMethod
  {
    var shaper := Dispatch(req.format, req.requestMethod);
    Call(EffectiveUrl(table, req.url),
         RequestOptions(if shaper == Info then Some("HEAD") else req.requestMethod, shaper != Raw))
  }

  /** The result a request comes to once the client has answered the planned
      call, written as a single case analysis: an error is normalised the same
      way whatever the route; an answer takes the route's shape. */
  function ResultOf(codecs: Codecs, table: map<string, Mapping>, req: PageRequest, outcome: Outcome): (r: PageResult)
    ensures outcome.Thrown? ==> r == ProcessError(codecs, outcome.error)
    ensures outcome.Received? ==>
      var shaper := Dispatch(req.format, req.requestMethod);
      && (r.PageInfo? <==> shaper == Info)
      && (r.RawPage? <==> shaper == Raw)
      && (r.PageContents? <==> shaper == Contents)
  {
    var url := EffectiveUrl(table, req.url);
    match outcome
    case Thrown(e) => ProcessError(codecs, e)
    case Received(response) =>
      var contentType := Header(response.headers, "content-type");
      match Dispatch(req.format, req.requestMethod)
      case Info =>
        PageInfo(url, contentType, InfoContentLength(Header(response.headers, "content-length")), response.statusCode)
      case Raw =>
        var content := ProcessContent(codecs, response, req.charset);
        RawPage(content, contentType, ByteLength(content))
      case Contents =>
        var content := ProcessContent(codecs, response, req.charset);
        PageContents(ContentToString(codecs, content), Status(url, contentType, ByteLength(content), response.statusCode))
  }

  /** The fetcher's entry point. The result is decided by the single planned
      call alone: the client is consulted once, at the rewritten URL with the
      planned options, and its answer is shaped by the route. */
  function GetPage(client: Client, codecs: Codecs, table: map<string, Mapping>, req: PageRequest): (r: PageResult)
    ensures r == ResultOf(codecs, table, req, client(Plan(table, req).url, Plan(table, req).options))
  {
    var url := EffectiveUrl(table, req.url);
    match Dispatch(req.format, req.requestMethod)
    case Info => GetPageInfo(client, codecs, url)
    case Raw => GetRawPage(client, codecs, url, req.requestMethod, req.charset)
    case Contents => GetPageContents(client, codecs, url, req.requestMethod, req.charset)
  }
}
