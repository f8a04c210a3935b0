/**
 * Failures of a sync call and the HTTP error response each one becomes:
 * the upstream's own error is relayed unchanged, anything else becomes a
 * fixed internal-server-error response.
 */
module SyncErrors {
  import opened Wrappers

  newtype byte = b: int | 0 <= b < 256

  type Bytes = seq<byte>

  /** The bytes of a text made of ASCII characters. */
  function AsciiBytes(s: string): (r: Bytes)
    ensures |r| == |s|
    ensures forall i :: 0 <= i < |s| && (s[i] as int) < 256 ==> r[i] as int == s[i] as int
  {
    seq(|s|, i requires 0 <= i < |s| => ((s[i] as int) % 256) as byte)
  }

  /** An upstream HTTP response that was not a success: status, content type and raw body. */
  datatype HttpError = HttpError(statusCode: int, contentType: string, body: Bytes)

  /**
   * What a sync call can fail with: a Matrix error (a structured body with
   * its own errcode and message, wrapping the HTTP response it came in), a
   * bare HTTP error, or any other error the client reports.
   */
  datatype SyncError =
    | MatrixError(http: HttpError, errcode: string, message: string)
    | UpstreamHttpError(http: HttpError)
    | OtherError(description: string)

  /** An HTTP response the handler writes: status, content type and body. */
  datatype Response = Response(status: int, contentType: string, body: Bytes)

  const StatusMethodNotAllowed: int := 405
  const StatusInternalServerError: int := 500

  /** The standard reason phrase of the two status codes the handlers produce themselves. */
  function StatusText(code: int): string {
    if code == StatusMethodNotAllowed then "Method Not Allowed"
    else if code == StatusInternalServerError then "Internal Server Error"
    else ""
  }

  /**
   * The handlers' httpError: a plain-text response whose body is the
   * status's reason phrase and a newline, in the form net/http's Error
   * writes it.
   */
  function PlainError(status: int): (r: Response)
    ensures r.status == status
    ensures r.contentType == "text/plain; charset=utf-8"
    ensures status == StatusMethodNotAllowed ==> r.body == AsciiBytes("Method Not Allowed\n")
    ensures status == StatusInternalServerError ==> r.body == AsciiBytes("Internal Server Error\n")
  {
    Response(status, "text/plain; charset=utf-8", AsciiBytes(StatusText(status) + "\n"))
  }

  /** The handlers' handleHttpError: the upstream response written back as it came. */
  function Relay(e: HttpError): Response {
    Response(e.statusCode, e.contentType, e.body)
  }

  /** The HTTP error the upstream sent, when the failure carries one. */
  function CarriedHttpError(e: SyncError): Option<HttpError> {
    match e
    case MatrixError(h, _, _) => Some(h)
    case UpstreamHttpError(h) => Some(h)
    case OtherError(_) => None
  }

  /**
   * The type switch both handlers run on a failed sync: a Matrix error and
   * an HTTP error are relayed with their status, content type and body
   * untouched; anything else becomes a 500 with the standard reason phrase.
   */
  function Classify(e: SyncError): (r: Response)
    ensures CarriedHttpError(e).Some? ==>
      var h := CarriedHttpError(e).value;
      r.status == h.statusCode && r.contentType == h.contentType && r.body == h.body
    ensures CarriedHttpError(e).None? ==> r == PlainError(StatusInternalServerError)
  {
    match e
    case MatrixError(h, _, _) => Relay(h)
    case UpstreamHttpError(h) => Relay(h)
    case OtherError(_) => PlainError(StatusInternalServerError)
  }

  /**
   * The bridge relays and never reinterprets: a Matrix error's code and
   * message do not change the response, which is the one its bare HTTP
   * error would give; and an internal error's description is never exposed.
   */
  lemma ClassifyIgnoresErrorDetail(h: HttpError, code1: string, msg1: string, code2: string, msg2: string,
                                   d1: string, d2: string)
    ensures Classify(MatrixError(h, code1, msg1)) == Classify(MatrixError(h, code2, msg2))
    ensures Classify(MatrixError(h, code1, msg1)) == Classify(UpstreamHttpError(h))
    ensures Classify(OtherError(d1)) == Classify(OtherError(d2))
  {
  }
}
