/** The message types of the HTTP layer and the classifiers that turn request
    tokens into them: request methods, protocol versions, header names and the
    table of status codes (section 15 of RFC 9110 plus the WebDAV and extension
    codes the server names). */
module Http {
  import opened Wrappers
  import opened Strings

  // ---------------------------------------------------------------------------
  // Methods
  // ---------------------------------------------------------------------------

  datatype Method = GET | POST | PATCH | DELETE

  /** The canonical spelling of a method. */
  function MethodToken(m: Method): string {
    match m
    case GET => "GET"
    case POST => "POST"
    case PATCH => "PATCH"
    case DELETE => "DELETE"
  }

  /** `HTTPMethod::from_str`: the token is upper-cased and compared with the four
      method names; anything else is an error carrying the token. */
  function ParseMethod(s: string): (r: Result<Method, string>)
    ensures forall m :: r == Success(m) <==> SpellsIgnoringCase(s, MethodToken(m))
    ensures r.Failure? ==> r.error == "Invalid HTTP method: " + s
  {
    MethodTokensAreUpperCase(s);
    match MethodNamed(ToUpper(s))
    case Some(m) => Success(m)
    case None => Failure("Invalid HTTP method: " + s)
  }

  /** The method whose canonical spelling is exactly `u`. */
  function MethodNamed(u: string): (r: Option<Method>)
    ensures forall m :: r == Some(m) <==> u == MethodToken(m)
  {
    if u == "GET" then Some(GET)
    else if u == "POST" then Some(POST)
    else if u == "PATCH" then Some(PATCH)
    else if u == "DELETE" then Some(DELETE)
    else None
  }

  lemma MethodTokensAreUpperCase(t: string)
    ensures forall m :: ToUpper(t) == MethodToken(m) <==> SpellsIgnoringCase(t, MethodToken(m))
  {
    forall m ensures ToUpper(t) == MethodToken(m) <==> SpellsIgnoringCase(t, MethodToken(m)) {
      ToUpperEqualsIff(t, MethodToken(m));
    }
  }

  /** Parsing depends on the letters only, not on their case. */
  lemma ParseMethodIgnoresCase(a: string, b: string)
    requires ToUpper(a) == ToUpper(b)
    ensures ParseMethod(a).Success? == ParseMethod(b).Success?
    ensures ParseMethod(a).Success? ==> ParseMethod(a) == ParseMethod(b)
  {
  }

  // ---------------------------------------------------------------------------
  // Versions
  // ---------------------------------------------------------------------------

  datatype Version = HTTP1_1 | HTTP2 | HTTP3

  /** The canonical spelling of a protocol version. */
  function VersionToken(v: Version): string {
    match v
    case HTTP1_1 => "HTTP/1.1"
    case HTTP2 => "HTTP/2"
    case HTTP3 => "HTTP/3"
  }

  /** `HTTPVersion::from_str`: the token is upper-cased, then trimmed of
      whitespace, and compared with the three version names. */
  function ParseVersion(s: string): (r: Result<Version, string>)
    ensures forall v :: r == Success(v) <==> SpellsIgnoringCase(Trim(s, Whitespace), VersionToken(v))
    ensures r.Failure? ==> r.error == "Invalid HTTP version: " + s
  {
    var t := Trim(s, Whitespace);
    TrimToUpper(s);
    VersionTokensAreUpperCase(t);
    match VersionNamed(Trim(ToUpper(s), Whitespace))
    case Some(v) => Success(v)
    case None => Failure("Invalid HTTP version: " + s)
  }

  /** The version whose canonical spelling is exactly `u`. */
  function VersionNamed(u: string): (r: Option<Version>)
    ensures forall v :: r == Some(v) <==> u == VersionToken(v)
  {
    if u == "HTTP/1.1" then Some(HTTP1_1)
    else if u == "HTTP/2" then Some(HTTP2)
    else if u == "HTTP/3" then Some(HTTP3)
    else None
  }

  lemma VersionTokensAreUpperCase(t: string)
    ensures forall v :: ToUpper(t) == VersionToken(v) <==> SpellsIgnoringCase(t, VersionToken(v))
  {
    forall v ensures ToUpper(t) == VersionToken(v) <==> SpellsIgnoringCase(t, VersionToken(v)) {
      ToUpperEqualsIff(t, VersionToken(v));
    }
  }

  /** Upper-casing never creates or removes whitespace, so it commutes with trimming. */
  lemma TrimToUpper(s: string)
    ensures Trim(ToUpper(s), Whitespace) == ToUpper(Trim(s, Whitespace))
  {
    TrimStartToUpper(s);
    TrimEndToUpper(TrimStart(s, Whitespace));
  }

  lemma TrimStartToUpper(s: string)
    ensures TrimStart(ToUpper(s), Whitespace) == ToUpper(TrimStart(s, Whitespace))
  {
    var u := ToUpper(s);
    var n := |s| - |TrimStart(s, Whitespace)|;
    forall i | 0 <= i < |s| ensures IsWhitespace(u[i]) <==> IsWhitespace(s[i]) {
      ToUpperCharKeepsWhitespace(s[i]);
    }
    TrimStartAt(u, Whitespace, n);
    assert u[n..] == ToUpper(s[n..]);
  }

  lemma TrimEndToUpper(s: string)
    ensures TrimEnd(ToUpper(s), Whitespace) == ToUpper(TrimEnd(s, Whitespace))
  {
    var u := ToUpper(s);
    var n := |TrimEnd(s, Whitespace)|;
    forall i | 0 <= i < |s| ensures IsWhitespace(u[i]) <==> IsWhitespace(s[i]) {
      ToUpperCharKeepsWhitespace(s[i]);
    }
    TrimEndAt(u, Whitespace, n);
    assert u[..n] == ToUpper(s[..n]);
  }

  // ---------------------------------------------------------------------------
  // Header names
  // ---------------------------------------------------------------------------

  /** A header name: `Accept`, or any other name in its upper-case form. */
  datatype HeaderName = Accept | Other(name: string)

  type Headers = map<HeaderName, string>

  /** `HTTPHeaderType::from_str`: never fails; "accept" in any case is `Accept`,
      every other name is kept upper-cased under `Other`. */
  function ParseHeaderName(s: string): (r: HeaderName)
    ensures r == Accept <==> SpellsIgnoringCase(s, "ACCEPT")
    ensures r.Other? ==> IsUpperCase(r.name) && r.name != "ACCEPT" && SpellsIgnoringCase(s, r.name)
  {
    var u := ToUpper(s);
    ToUpperEqualsIff(s, "ACCEPT");
    ToUpperEqualsIff(s, u);
    if u == "ACCEPT" then Accept else Other(u)
  }

  /** Two header names give the same key exactly when they are equal up to
      letter case. */
  lemma HeaderNameIgnoresCase(a: string, b: string)
    ensures ParseHeaderName(a) == ParseHeaderName(b) <==> ToUpper(a) == ToUpper(b)
  {
  }

  // ---------------------------------------------------------------------------
  // Messages
  // ---------------------------------------------------------------------------

  /** `HTTPRequest` (its `method` field is `httpMethod` here, `method` being a
      keyword); the target is kept verbatim, query string included. */
  datatype Request = Request(
    httpMethod: Method,
    url: string,
    version: Version,
    headers: Headers,
    body: Option<string>)

  /** `HTTPResponse`. */
  datatype Response = Response(status: Status, headers: Headers, body: Option<string>)

  // ---------------------------------------------------------------------------
  // Status codes
  // ---------------------------------------------------------------------------

  datatype Status =
    // 1xx
    | Continue
    | SwitchingProtocols
    | Processing
    | EarlyHints
    // 2xx
    | Ok
    | Created
    | Accepted
    | NonAuthoritativeInformation
    | NoContent
    | ResetContent
    | PartialContent
    | MultiStatus
    | AlreadyReported
    | ImUsed
    // 3xx
    | MultipleChoices
    | MovedPermanently
    | Found
    | SeeOther
    | NotModified
    | UseProxy
    | TemporaryRedirect
    | PermanentRedirect
    // 4xx
    | BadRequest
    | Unauthorized
    | PaymentRequired
    | Forbidden
    | NotFound
    | MethodNotAllowed
    | NotAcceptable
    | ProxyAuthenticationRequired
    | RequestTimeout
    | Conflict
    | Gone
    | LengthRequired
    | PreconditionFailed
    | PayloadTooLarge
    | UriTooLong
    | UnsupportedMediaType
    | RangeNotSatisfiable
    | ExpectationFailed
    | ImATeapot
    | MisdirectedRequest
    | UnprocessableEntity
    | Locked
    | FailedDependency
    | TooEarly
    | UpgradeRequired
    | PreconditionRequired
    | TooManyRequests
    | RequestHeaderFieldsTooLarge
    | UnavailableForLegalReasons
    // 5xx
    | InternalServerError
    | NotImplemented
    | BadGateway
    | ServiceUnavailable
    | GatewayTimeout
    | HttpVersionNotSupported
    | VariantAlsoNegotiates
    | InsufficientStorage
    | LoopDetected
    | NotExtended
    | NetworkAuthenticationRequired

  /** The hundred-range a status is listed under: 1 for informational through
      5 for server errors. */
  function Class(s: Status): (k: nat)
    ensures 1 <= k <= 5
  {
    match s
    case Continue | SwitchingProtocols | Processing | EarlyHints => 1
    case Ok | Created | Accepted | NonAuthoritativeInformation | NoContent | ResetContent
      | PartialContent | MultiStatus | AlreadyReported | ImUsed => 2
    case MultipleChoices | MovedPermanently | Found | SeeOther | NotModified | UseProxy
      | TemporaryRedirect | PermanentRedirect => 3
    case BadRequest | Unauthorized | PaymentRequired | Forbidden | NotFound | MethodNotAllowed
      | NotAcceptable | ProxyAuthenticationRequired | RequestTimeout | Conflict | Gone
      | LengthRequired | PreconditionFailed | PayloadTooLarge | UriTooLong
      | UnsupportedMediaType | RangeNotSatisfiable | ExpectationFailed | ImATeapot
      | MisdirectedRequest | UnprocessableEntity | Locked | FailedDependency | TooEarly
      | UpgradeRequired | PreconditionRequired | TooManyRequests | RequestHeaderFieldsTooLarge
      | UnavailableForLegalReasons => 4
    case InternalServerError | NotImplemented | BadGateway | ServiceUnavailable | GatewayTimeout
      | HttpVersionNotSupported | VariantAlsoNegotiates | InsufficientStorage | LoopDetected
      | NotExtended | NetworkAuthenticationRequired => 5
  }

  /** `HTTPStatus::code`. */
  function Code(s: Status): nat
  {
    match s
    case Continue => 100
    case SwitchingProtocols => 101
    case Processing => 102
    case EarlyHints => 103
    case Ok => 200
    case Created => 201
    case Accepted => 202
    case NonAuthoritativeInformation => 203
    case NoContent => 204
    case ResetContent => 205
    case PartialContent => 206
    case MultiStatus => 207
    case AlreadyReported => 208
    case ImUsed => 226
    case MultipleChoices => 300
    case MovedPermanently => 301
    case Found => 302
    case SeeOther => 303
    case NotModified => 304
    case UseProxy => 305
    case TemporaryRedirect => 307
    case PermanentRedirect => 308
    case BadRequest => 400
    case Unauthorized => 401
    case PaymentRequired => 402
    case Forbidden => 403
    case NotFound => 404
    case MethodNotAllowed => 405
    case NotAcceptable => 406
    case ProxyAuthenticationRequired => 407
    case RequestTimeout => 408
    case Conflict => 409
    case Gone => 410
    case LengthRequired => 411
    case PreconditionFailed => 412
    case PayloadTooLarge => 413
    case UriTooLong => 414
    case UnsupportedMediaType => 415
    case RangeNotSatisfiable => 416
    case ExpectationFailed => 417
    case ImATeapot => 418
    case MisdirectedRequest => 421
    case UnprocessableEntity => 422
    case Locked => 423
    case FailedDependency => 424
    case TooEarly => 425
    case UpgradeRequired => 426
    case PreconditionRequired => 428
    case TooManyRequests => 429
    case RequestHeaderFieldsTooLarge => 431
    case UnavailableForLegalReasons => 451
    case InternalServerError => 500
    case NotImplemented => 501
    case BadGateway => 502
    case ServiceUnavailable => 503
    case GatewayTimeout => 504
    case HttpVersionNotSupported => 505
    case VariantAlsoNegotiates => 506
    case InsufficientStorage => 507
    case LoopDetected => 508
    case NotExtended => 510
    case NetworkAuthenticationRequired => 511
  }

  /** The status a numeric code stands for, if any: the inverse of `Code`.
      The table is cut into short runs of codes only to keep each proof small. */
  function FromCode(c: int): (r: Option<Status>)
    ensures r.Some? ==> Code(r.value) == c
  {
    if c < 200 then FromCode100To103(c)
    else if c < 206 then FromCode200To205(c)
    else if c < 300 then FromCode206To226(c)
    else if c < 304 then FromCode300To303(c)
    else if c < 400 then FromCode304To308(c)
    else if c < 406 then FromCode400To405(c)
    else if c < 412 then FromCode406To411(c)
    else if c < 418 then FromCode412To417(c)
    else if c < 426 then FromCode418To425(c)
    else if c < 500 then FromCode426To451(c)
    else if c < 504 then FromCode500To503(c)
    else if c < 508 then FromCode504To507(c)
    else FromCode508To511(c)
  }

  function FromCode100To103(c: int): (r: Option<Status>)
    ensures r.Some? ==> Code(r.value) == c
  {
    match c
    case 100 => Some(Continue)
    case 101 => Some(SwitchingProtocols)
    case 102 => Some(Processing)
    case 103 => Some(EarlyHints)
    case _ => None
  }

  function FromCode200To205(c: int): (r: Option<Status>)
    ensures r.Some? ==> Code(r.value) == c
  {
    match c
    case 200 => Some(Ok)
    case 201 => Some(Created)
    case 202 => Some(Accepted)
    case 203 => Some(NonAuthoritativeInformation)
    case 204 => Some(NoContent)
    case 205 => Some(ResetContent)
    case _ => None
  }

  function FromCode206To226(c: int): (r: Option<Status>)
    ensures r.Some? ==> Code(r.value) == c
  {
    match c
    case 206 => Some(PartialContent)
    case 207 => Some(MultiStatus)
    case 208 => Some(AlreadyReported)
    case 226 => Some(ImUsed)
    case _ => None
  }

  function FromCode300To303(c: int): (r: Option<Status>)
    ensures r.Some? ==> Code(r.value) == c
  {
    match c
    case 300 => Some(MultipleChoices)
    case 301 => Some(MovedPermanently)
    case 302 => Some(Found)
    case 303 => Some(SeeOther)
    case _ => None
  }

  function FromCode304To308(c: int): (r: Option<Status>)
    ensures r.Some? ==> Code(r.value) == c
  {
    match c
    case 304 => Some(NotModified)
    case 305 => Some(UseProxy)
    case 307 => Some(TemporaryRedirect)
    case 308 => Some(PermanentRedirect)
    case _ => None
  }

  function FromCode400To405(c: int): (r: Option<Status>)
    ensures r.Some? ==> Code(r.value) == c
  {
    match c
    case 400 => Some(BadRequest)
    case 401 => Some(Unauthorized)
    case 402 => Some(PaymentRequired)
    case 403 => Some(Forbidden)
    case 404 => Some(NotFound)
    case 405 => Some(MethodNotAllowed)
    case _ => None
  }

  function FromCode406To411(c: int): (r: Option<Status>)
    ensures r.Some? ==> Code(r.value) == c
  {
    match c
    case 406 => Some(NotAcceptable)
    case 407 => Some(ProxyAuthenticationRequired)
    case 408 => Some(RequestTimeout)
    case 409 => Some(Conflict)
    case 410 => Some(Gone)
    case 411 => Some(LengthRequired)
    case _ => None
  }

  function FromCode412To417(c: int): (r: Option<Status>)
    ensures r.Some? ==> Code(r.value) == c
  {
    match c
    case 412 => Some(PreconditionFailed)
    case 413 => Some(PayloadTooLarge)
    case 414 => Some(UriTooLong)
    case 415 => Some(UnsupportedMediaType)
    case 416 => Some(RangeNotSatisfiable)
    case 417 => Some(ExpectationFailed)
    case _ => None
  }

  function FromCode418To425(c: int): (r: Option<Status>)
    ensures r.Some? ==> Code(r.value) == c
  {
    match c
    case 418 => Some(ImATeapot)
    case 421 => Some(MisdirectedRequest)
    case 422 => Some(UnprocessableEntity)
    case 423 => Some(Locked)
    case 424 => Some(FailedDependency)
    case 425 => Some(TooEarly)
    case _ => None
  }

  function FromCode426To451(c: int): (r: Option<Status>)
    ensures r.Some? ==> Code(r.value) == c
  {
    match c
    case 426 => Some(UpgradeRequired)
    case 428 => Some(PreconditionRequired)
    case 429 => Some(TooManyRequests)
    case 431 => Some(RequestHeaderFieldsTooLarge)
    case 451 => Some(UnavailableForLegalReasons)
    case _ => None
  }

  function FromCode500To503(c: int): (r: Option<Status>)
    ensures r.Some? ==> Code(r.value) == c
  {
    match c
    case 500 => Some(InternalServerError)
    case 501 => Some(NotImplemented)
    case 502 => Some(BadGateway)
    case 503 => Some(ServiceUnavailable)
    case _ => None
  }

  function FromCode504To507(c: int): (r: Option<Status>)
    ensures r.Some? ==> Code(r.value) == c
  {
    match c
    case 504 => Some(GatewayTimeout)
    case 505 => Some(HttpVersionNotSupported)
    case 506 => Some(VariantAlsoNegotiates)
    case 507 => Some(InsufficientStorage)
    case _ => None
  }

  function FromCode508To511(c: int): (r: Option<Status>)
    ensures r.Some? ==> Code(r.value) == c
  {
    match c
    case 508 => Some(LoopDetected)
    case 510 => Some(NotExtended)
    case 511 => Some(NetworkAuthenticationRequired)
    case _ => None
  }

  /** Every code lies in [100, 599], within the hundred of its class. */
  lemma CodeInClass(s: Status)
    ensures 100 <= Code(s) <= 599
    ensures 100 * Class(s) <= Code(s) < 100 * Class(s) + 100
  {
  }

  /** `FromCode` recovers every status from its code. */
  lemma FromCodeOfCode(s: Status)
    ensures FromCode(Code(s)) == Some(s)
  {
    match Class(s)
    case 1 => FromCodeOfCodeIn1xx(s);
    case 2 => FromCodeOfCodeIn2xx(s);
    case 3 => FromCodeOfCodeIn3xx(s);
    case 4 => FromCodeOfCodeIn4xx(s);
    case 5 => FromCodeOfCodeIn5xx(s);
  }

  lemma FromCodeOfCodeIn1xx(s: Status)
    requires Class(s) == 1
    ensures FromCode(Code(s)) == Some(s)
  {
  }

  lemma FromCodeOfCodeIn2xx(s: Status)
    requires Class(s) == 2
    ensures FromCode(Code(s)) == Some(s)
  {
  }

  lemma FromCodeOfCodeIn3xx(s: Status)
    requires Class(s) == 3
    ensures FromCode(Code(s)) == Some(s)
  {
  }

  lemma FromCodeOfCodeIn4xx(s: Status)
    requires Class(s) == 4
    ensures FromCode(Code(s)) == Some(s)
  {
  }

  lemma FromCodeOfCodeIn5xx(s: Status)
    requires Class(s) == 5
    ensures FromCode(Code(s)) == Some(s)
  {
  }

  /** Distinct statuses have distinct codes. */
  lemma CodeInjective(a: Status, b: Status)
    ensures Code(a) == Code(b) ==> a == b
  {
    FromCodeOfCode(a);
    FromCodeOfCode(b);
  }
}
