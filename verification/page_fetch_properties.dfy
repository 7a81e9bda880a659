/** Properties of the page fetcher that relate several of its operations, and
    worked scenarios. */
module PageFetchProperties {
  import opened Optional
  import opened Strings
  import opened Utf8
  import opened Http
  import opened DomainMappings
  import opened PageFetch

  /** A positive number written as a `content-length` header reads back as
      itself; written as `0` it reads as -1, like a missing header. */
  lemma InfoLengthOfDecimal(n: nat)
    ensures n > 0 ==> InfoContentLength(Some(Decimal(n))) == n
    ensures n == 0 ==> InfoContentLength(Some(Decimal(n))) == -1
  {
    DecimalRoundTrip(n);
  }

  /** A metadata answer whose `content-length` header is a positive number
      written in decimal reports that number as its length. */
  lemma InfoReportsHeaderLength(client: Client, codecs: Codecs, table: map<string, Mapping>,
                                req: PageRequest, n: nat)
    requires Dispatch(req.format, req.requestMethod) == Info
    requires n > 0
    requires var o := client(Plan(table, req).url, Plan(table, req).options);
      o.Received? && Header(o.response.headers, "content-length") == Some(Decimal(n))
    ensures var r := GetPage(client, codecs, table, req);
      r.PageInfo? && r.contentLength == n
  {
    DecimalRoundTrip(n);
  }

  /** A `HEAD` request is always sent as `HEAD`, with decompression on, and
      comes back as metadata or as a normalised error, never with a body. */
  lemma HeadGetsMetadata(client: Client, codecs: Codecs, table: map<string, Mapping>, req: PageRequest)
    requires req.requestMethod == Some("HEAD")
    ensures Plan(table, req).options == RequestOptions(Some("HEAD"), true)
    ensures var r := GetPage(client, codecs, table, req);
      r.PageInfo? || r == ProcessError(codecs, client(Plan(table, req).url, Plan(table, req).options).error)
  {
  }

  /** Decompression is switched off for raw requests and for nothing else. */
  lemma OnlyRawSkipsDecompression(table: map<string, Mapping>, req: PageRequest)
    ensures !Plan(table, req).options.decompress <==> req.format == Some("raw") && req.requestMethod != Some("HEAD")
  {
  }

  /** An HTTP error status is indistinguishable in shape from a success: for a
      contents request whose body is not charset-decoded, an error carrying a
      response gives exactly the result the same response would give as a
      success, as long as the response reports the URL that was asked for. */
  lemma ErrorLooksLikeSuccess(codecs: Codecs, table: map<string, Mapping>, req: PageRequest,
                              response: Response, message: string)
    requires Dispatch(req.format, req.requestMethod) == Contents
    requires !Decodes(codecs, req.charset)
    requires response.url == EffectiveUrl(table, req.url)
    ensures ResultOf(codecs, table, req, Thrown(HttpError(message, Some(response))))
         == ResultOf(codecs, table, req, Received(response))
  {
  }

  /** A body that is the UTF-8 encoding of some text, fetched without a
      charset, comes back as that text, and its reported length is the
      encoding's byte length. */
  lemma {:induction false} Utf8BodyRoundTrip(codecs: Codecs, table: map<string, Mapping>, req: PageRequest,
                                             response: Response, text: string)
    requires Dispatch(req.format, req.requestMethod) == Contents
    requires !Decodes(codecs, req.charset)
    requires response.body == Encode(text)
    ensures var r := ResultOf(codecs, table, req, Received(response));
      r.PageContents? && r.contents == text && r.status.contentLength == |Encode(text)|
  {
    DecodeEncode(text);
  }

  /** A body the charset library decodes to some text, fetched with that
      charset, comes back as that text, with the text's UTF-8 byte length. */
  lemma CharsetRoundTrip(codecs: Codecs, table: map<string, Mapping>, req: PageRequest,
                         response: Response, text: string)
    requires Dispatch(req.format, req.requestMethod) == Contents
    requires Decodes(codecs, req.charset)
    requires codecs.decode(response.body, req.charset.value) == text
    ensures var r := ResultOf(codecs, table, req, Received(response));
      r.PageContents? && r.contents == text && r.status.contentLength == |Encode(text)|
  {
  }

  /** Whenever the returned contents are known exactly (decoded by the charset
      library, or well-formed UTF-8), the reported length is the UTF-8 byte
      length of the contents themselves. */
  lemma ContentsLengthIsEncodedLength(codecs: Codecs, table: map<string, Mapping>, req: PageRequest,
                                      response: Response)
    requires Dispatch(req.format, req.requestMethod) == Contents
    requires Decodes(codecs, req.charset) || Decode(response.body).Some?
    ensures var r := ResultOf(codecs, table, req, Received(response));
      r.PageContents? && r.status.contentLength == |Encode(r.contents)|
  {
    if !Decodes(codecs, req.charset) {
      EncodeDecode(response.body);
    }
  }

  /** A raw result's length is the byte length of the returned content, not
      the `content-length` header: two responses that differ only in that
      header give the same raw result. */
  lemma RawLengthIgnoresHeader(codecs: Codecs, table: map<string, Mapping>, req: PageRequest,
                               response: Response, header: string)
    requires Dispatch(req.format, req.requestMethod) == Raw
    ensures var other := response.(headers := response.headers["content-length" := header]);
      ResultOf(codecs, table, req, Received(other)) == ResultOf(codecs, table, req, Received(response))
  {
    var other := response.(headers := response.headers["content-length" := header]);
    assert Header(other.headers, "content-type") == Header(response.headers, "content-type");
  }

  /** A transport failure without a response comes back as
      `{contents: null, status: {error}}` holding the error itself. */
  lemma TransportFailureScenario(client: Client, codecs: Codecs, table: map<string, Mapping>,
                                 req: PageRequest, message: string)
    requires forall u: string, o: RequestOptions :: client(u, o) == Thrown(HttpError(message, None))
    ensures GetPage(client, codecs, table, req) == TransportFailure(HttpError(message, None))
  {
  }

  /** A 404 whose body is `not found` comes back as the contents `not found`
      with status code 404, content type `text/plain` and length 9. */
  lemma NotFoundScenario(codecs: Codecs, table: map<string, Mapping>, u: Url, finalUrl: string)
    ensures
      var response := Response(finalUrl, 404, map["content-type" := "text/plain"], Encode("not found"));
      var client := (url: string, o: RequestOptions) => Thrown(HttpError("Response code 404", Some(response)));
      var req := PageRequest(u, None, Some("GET"), None);
      GetPage(client, codecs, table, req)
        == PageContents("not found", Status(finalUrl, Some("text/plain"), 9, 404))
  {
    var text := "not found";
    assert IsAscii(text);
    AsciiEncoding(text);
    DecodeEncode(text);
  }

  /** A `HEAD` response without a `content-length` header reports length -1. */
  lemma MissingLengthScenario(codecs: Codecs, table: map<string, Mapping>, u: Url, response: Response)
    requires "content-length" !in response.headers
    ensures
      var client := (url: string, o: RequestOptions) => Received(response);
      var r := GetPage(client, codecs, table, PageRequest(u, None, Some("HEAD"), None));
      r.PageInfo? && r.contentLength == -1 && r.httpCode == response.statusCode
  {
  }
}
