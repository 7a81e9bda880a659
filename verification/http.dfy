/** The collaborators of the page fetcher, seen only through what it asks of
    them: an HTTP client that answers one request with a response or fails
    with an error (which may carry a response), and a character-set library
    that says whether it knows an encoding and decodes bytes with it. */
module Http {
  import opened Optional
  import opened Utf8

  /** Response headers by lower-case name. */
  type Headers = map<string, string>

  /** A received response: its final URL, status code, headers and the whole body as bytes. */
  datatype Response = Response(url: string, statusCode: int, headers: Headers, body: seq<byte>)

  /** A failure raised by the client. An HTTP error status carries the response
      that was received; a transport failure (DNS, refused connection, timeout,
      TLS) carries none. */
  datatype HttpError = HttpError(message: string, response: Option<Response>)

  /** What one call of the client comes to. */
  datatype Outcome = Received(response: Response) | Thrown(error: HttpError)

  /** The options handed to the client: the HTTP method, and whether it should
      undo a `content-encoding` on the body. */
  datatype RequestOptions = RequestOptions(httpMethod: Option<string>, decompress: bool)

  /** The HTTP client: one request, one outcome. */
  type Client = (string, RequestOptions) -> Outcome

  /** The character-set library, and how Node reads a buffer that is not
      well-formed UTF-8 (replacement characters; not modelled here). */
  datatype Codecs = Codecs(
    encodingExists: string -> bool,
    decode: (seq<byte>, string) -> string,
    lossyUtf8: seq<byte> -> string)

  /** `headers[name]`: the value when the header was sent, `undefined` otherwise. */
  function Header(headers: Headers, name: string): (v: Option<string>)
    ensures v.Some? <==> name in headers
    ensures v.Some? ==> v.value == headers[name]
  {
    if name in headers then Some(headers[name]) else None
  }
}
