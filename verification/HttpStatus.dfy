/**
 * The `HttpStatus` enumeration: its constants in declaration order, their codes,
 * and `forCode`, a first-match search over that order. Several constants share a
 * code (100, 200, 300, 400 and 500), so `forCode` returns the first of them.
 */
module Status {
  import opened Wrappers

  /** The number of constants. */
  const Count: int := 66

  /** A constant of the enumeration, identified by its ordinal: its position in declaration order. */
  newtype HttpStatus = i: int | 0 <= i < Count

  const INFORMATIONAL: HttpStatus := 0
  const CONTINUE: HttpStatus := 1
  const SWITCHING_PROTOCOLS: HttpStatus := 2
  const PROCESSING: HttpStatus := 3
  const EARLY_HINTS: HttpStatus := 4
  const SUCCESS: HttpStatus := 5
  const OK: HttpStatus := 6
  const CREATED: HttpStatus := 7
  const ACCEPTED: HttpStatus := 8
  const NON_AUTHORITATIVE_INFORMATION: HttpStatus := 9
  const NO_CONTENT: HttpStatus := 10
  const RESET_CONTENT: HttpStatus := 11
  const PARTIAL_CONTENT: HttpStatus := 12
  const MULTI_STATUS: HttpStatus := 13
  const ALREADY_REPORTED: HttpStatus := 14
  const IM_USED: HttpStatus := 15
  const REDIRECTION: HttpStatus := 16
  const MULTIPLE_CHOICES: HttpStatus := 17
  const MOVED_PERMANENTLY: HttpStatus := 18
  const MOVED_TEMPORARILY: HttpStatus := 19
  const SEE_OTHER: HttpStatus := 20
  const NOT_MODIFIED: HttpStatus := 21
  const USE_PROXY: HttpStatus := 22
  const TEMPORARY_REDIRECT: HttpStatus := 23
  const PERMANENT_REDIRECT: HttpStatus := 24
  const CLIENT_ERROR: HttpStatus := 25
  const BAD_REQUEST: HttpStatus := 26
  const UNAUTHORIZED: HttpStatus := 27
  const PAYMENT_REQUIRED: HttpStatus := 28
  const FORBIDDEN: HttpStatus := 29
  const NOT_FOUND: HttpStatus := 30
  const METHOD_NOT_ALLOWED: HttpStatus := 31
  const NOT_ACCEPTABLE: HttpStatus := 32
  const PROXY_AUTHENTICATION_REQUIRED: HttpStatus := 33
  const REQUEST_TIMEOUT: HttpStatus := 34
  const CONFLICT: HttpStatus := 35
  const GONE: HttpStatus := 36
  const LENGTH_REQUIRED: HttpStatus := 37
  const PRECONDITION_FAILED: HttpStatus := 38
  const REQUEST_TOO_LONG: HttpStatus := 39
  const REQUEST_URI_TOO_LONG: HttpStatus := 40
  const UNSUPPORTED_MEDIA_TYPE: HttpStatus := 41
  const REQUESTED_RANGE_NOT_SATISFIABLE: HttpStatus := 42
  const EXPECTATION_FAILED: HttpStatus := 43
  const MISDIRECTED_REQUEST: HttpStatus := 44
  const INSUFFICIENT_SPACE_ON_RESOURCE: HttpStatus := 45
  const METHOD_FAILURE: HttpStatus := 46
  const UNPROCESSABLE_ENTITY: HttpStatus := 47
  const LOCKED: HttpStatus := 48
  const FAILED_DEPENDENCY: HttpStatus := 49
  const PRECONDITION_REQUIRED: HttpStatus := 50
  const TOO_MANY_REQUESTS: HttpStatus := 51
  const REQUEST_HEADER_FIELDS_TOO_LARGE: HttpStatus := 52
  const UNAVAILABLE_FOR_LEGAL_REASONS: HttpStatus := 53
  const SERVER_ERROR: HttpStatus := 54
  const INTERNAL_SERVER_ERROR: HttpStatus := 55
  const NOT_IMPLEMENTED: HttpStatus := 56
  const BAD_GATEWAY: HttpStatus := 57
  const SERVICE_UNAVAILABLE: HttpStatus := 58
  const GATEWAY_TIMEOUT: HttpStatus := 59
  const HTTP_VERSION_NOT_SUPPORTED: HttpStatus := 60
  const VARIANT_ALSO_NEGOTIATES: HttpStatus := 61
  const INSUFFICIENT_STORAGE: HttpStatus := 62
  const LOOP_DETECTED: HttpStatus := 63
  const NOT_EXTENDED: HttpStatus := 64
  const NETWORK_AUTHENTICATION_REQUIRED: HttpStatus := 65

  /** `code()`: the numeric status code each constant was declared with. */
  function Code(s: HttpStatus): (c: int)
    ensures 100 <= c <= 511
  {
    match s
    case 0 => 100  // INFORMATIONAL
    case 1 => 100  // CONTINUE
    case 2 => 101  // SWITCHING_PROTOCOLS
    case 3 => 102  // PROCESSING
    case 4 => 103  // EARLY_HINTS
    case 5 => 200  // SUCCESS
    case 6 => 200  // OK
    case 7 => 201  // CREATED
    case 8 => 202  // ACCEPTED
    case 9 => 203  // NON_AUTHORITATIVE_INFORMATION
    case 10 => 204 // NO_CONTENT
    case 11 => 205 // RESET_CONTENT
    case 12 => 206 // PARTIAL_CONTENT
    case 13 => 207 // MULTI_STATUS
    case 14 => 208 // ALREADY_REPORTED
    case 15 => 226 // IM_USED
    case 16 => 300 // REDIRECTION
    case 17 => 300 // MULTIPLE_CHOICES
    case 18 => 301 // MOVED_PERMANENTLY
    case 19 => 302 // MOVED_TEMPORARILY
    case 20 => 303 // SEE_OTHER
    case 21 => 304 // NOT_MODIFIED
    case 22 => 305 // USE_PROXY
    case 23 => 307 // TEMPORARY_REDIRECT
    case 24 => 308 // PERMANENT_REDIRECT
    case 25 => 400 // CLIENT_ERROR
    case 26 => 400 // BAD_REQUEST
    case 27 => 401 // UNAUTHORIZED
    case 28 => 402 // PAYMENT_REQUIRED
    case 29 => 403 // FORBIDDEN
    case 30 => 404 // NOT_FOUND
    case 31 => 405 // METHOD_NOT_ALLOWED
    case 32 => 406 // NOT_ACCEPTABLE
    case 33 => 407 // PROXY_AUTHENTICATION_REQUIRED
    case 34 => 408 // REQUEST_TIMEOUT
    case 35 => 409 // CONFLICT
    case 36 => 410 // GONE
    case 37 => 411 // LENGTH_REQUIRED
    case 38 => 412 // PRECONDITION_FAILED
    case 39 => 413 // REQUEST_TOO_LONG
    case 40 => 414 // REQUEST_URI_TOO_LONG
    case 41 => 415 // UNSUPPORTED_MEDIA_TYPE
    case 42 => 416 // REQUESTED_RANGE_NOT_SATISFIABLE
    case 43 => 417 // EXPECTATION_FAILED
    case 44 => 421 // MISDIRECTED_REQUEST
    case 45 => 419 // INSUFFICIENT_SPACE_ON_RESOURCE
    case 46 => 420 // METHOD_FAILURE
    case 47 => 422 // UNPROCESSABLE_ENTITY
    case 48 => 423 // LOCKED
    case 49 => 424 // FAILED_DEPENDENCY
    case 50 => 428 // PRECONDITION_REQUIRED
    case 51 => 429 // TOO_MANY_REQUESTS
    case 52 => 431 // REQUEST_HEADER_FIELDS_TOO_LARGE
    case 53 => 451 // UNAVAILABLE_FOR_LEGAL_REASONS
    case 54 => 500 // SERVER_ERROR
    case 55 => 500 // INTERNAL_SERVER_ERROR
    case 56 => 501 // NOT_IMPLEMENTED
    case 57 => 502 // BAD_GATEWAY
    case 58 => 503 // SERVICE_UNAVAILABLE
    case 59 => 504 // GATEWAY_TIMEOUT
    case 60 => 505 // HTTP_VERSION_NOT_SUPPORTED
    case 61 => 506 // VARIANT_ALSO_NEGOTIATES
    case 62 => 507 // INSUFFICIENT_STORAGE
    case 63 => 508 // LOOP_DETECTED
    case 64 => 510 // NOT_EXTENDED
    case _ => 511  // NETWORK_AUTHENTICATION_REQUIRED
  }

  /** An identifier of upper-case letters and underscores, as every constant is named. */
  predicate IsConstantName(n: string) {
    |n| > 0 && forall i :: 0 <= i < |n| ==> 'A' <= n[i] <= 'Z' || n[i] == '_'
  }

  /** `name()`: the identifier each constant was declared with. */
  function Name(s: HttpStatus): (r: string)
  {
    match s
    case 0 => "INFORMATIONAL"
    case 1 => "CONTINUE"
    case 2 => "SWITCHING_PROTOCOLS"
    case 3 => "PROCESSING"
    case 4 => "EARLY_HINTS"
    case 5 => "SUCCESS"
    case 6 => "OK"
    case 7 => "CREATED"
    case 8 => "ACCEPTED"
    case 9 => "NON_AUTHORITATIVE_INFORMATION"
    case 10 => "NO_CONTENT"
    case 11 => "RESET_CONTENT"
    case 12 => "PARTIAL_CONTENT"
    case 13 => "MULTI_STATUS"
    case 14 => "ALREADY_REPORTED"
    case 15 => "IM_USED"
    case 16 => "REDIRECTION"
    case 17 => "MULTIPLE_CHOICES"
    case 18 => "MOVED_PERMANENTLY"
    case 19 => "MOVED_TEMPORARILY"
    case 20 => "SEE_OTHER"
    case 21 => "NOT_MODIFIED"
    case 22 => "USE_PROXY"
    case 23 => "TEMPORARY_REDIRECT"
    case 24 => "PERMANENT_REDIRECT"
    case 25 => "CLIENT_ERROR"
    case 26 => "BAD_REQUEST"
    case 27 => "UNAUTHORIZED"
    case 28 => "PAYMENT_REQUIRED"
    case 29 => "FORBIDDEN"
    case 30 => "NOT_FOUND"
    case 31 => "METHOD_NOT_ALLOWED"
    case 32 => "NOT_ACCEPTABLE"
    case 33 => "PROXY_AUTHENTICATION_REQUIRED"
    case 34 => "REQUEST_TIMEOUT"
    case 35 => "CONFLICT"
    case 36 => "GONE"
    case 37 => "LENGTH_REQUIRED"
    case 38 => "PRECONDITION_FAILED"
    case 39 => "REQUEST_TOO_LONG"
    case 40 => "REQUEST_URI_TOO_LONG"
    case 41 => "UNSUPPORTED_MEDIA_TYPE"
    case 42 => "REQUESTED_RANGE_NOT_SATISFIABLE"
    case 43 => "EXPECTATION_FAILED"
    case 44 => "MISDIRECTED_REQUEST"
    case 45 => "INSUFFICIENT_SPACE_ON_RESOURCE"
    case 46 => "METHOD_FAILURE"
    case 47 => "UNPROCESSABLE_ENTITY"
    case 48 => "LOCKED"
    case 49 => "FAILED_DEPENDENCY"
    case 50 => "PRECONDITION_REQUIRED"
    case 51 => "TOO_MANY_REQUESTS"
    case 52 => "REQUEST_HEADER_FIELDS_TOO_LARGE"
    case 53 => "UNAVAILABLE_FOR_LEGAL_REASONS"
    case 54 => "SERVER_ERROR"
    case 55 => "INTERNAL_SERVER_ERROR"
    case 56 => "NOT_IMPLEMENTED"
    case 57 => "BAD_GATEWAY"
    case 58 => "SERVICE_UNAVAILABLE"
    case 59 => "GATEWAY_TIMEOUT"
    case 60 => "HTTP_VERSION_NOT_SUPPORTED"
    case 61 => "VARIANT_ALSO_NEGOTIATES"
    case 62 => "INSUFFICIENT_STORAGE"
    case 63 => "LOOP_DETECTED"
    case 64 => "NOT_EXTENDED"
    case _ => "NETWORK_AUTHENTICATION_REQUIRED"
  }

  /** The first constant, at ordinal `from` or later, whose code is `code`. */
  function FirstWithCode(code: int, from: int): (r: Option<HttpStatus>)
    requires 0 <= from <= Count
    ensures r.Some? ==> from <= r.value as int && Code(r.value) == code
    ensures r.Some? ==> forall t: HttpStatus :: from <= t as int < r.value as int ==> Code(t) != code
    ensures r.None? <==> forall t: HttpStatus :: from <= t as int ==> Code(t) != code
    decreases Count - from
  {
    if from == Count then None
    else if Code(from as HttpStatus) == code then Some(from as HttpStatus)
    else FirstWithCode(code, from + 1)
  }

  /**
   * `HttpStatus.forCode`: the first constant, in declaration order, whose code is
   * `code`; `IllegalArgumentException` exactly when no constant has that code.
   */
  function ForCode(code: int): (r: Result<HttpStatus>)
    ensures r.Ok? ==> Code(r.value) == code
    ensures r.Ok? ==> forall t: HttpStatus :: t < r.value ==> Code(t) != code
    ensures r.Err? <==> forall t: HttpStatus :: Code(t) != code
    ensures r.Err? ==> r.error == IllegalArgument
  {
    match FirstWithCode(code, 0)
    case Some(s) => Ok(s)
    case None => Err(IllegalArgument)
  }

  /** Looking up the code of any constant finds that constant or an earlier one with the same code. */
  lemma ForCodeRoundTrip(s: HttpStatus)
    ensures ForCode(Code(s)).Ok?
    ensures ForCode(Code(s)).value <= s && Code(ForCode(Code(s)).value) == Code(s)
  {
  }

  /** Where codes are shared, the first-declared constant wins: the class constants come first. */
  lemma ForCodeAliases()
    ensures ForCode(100) == Ok(INFORMATIONAL) && ForCode(200) == Ok(SUCCESS)
    ensures ForCode(300) == Ok(REDIRECTION) && ForCode(400) == Ok(CLIENT_ERROR)
    ensures ForCode(500) == Ok(SERVER_ERROR)
  {
    FirstOfCode(100, INFORMATIONAL);
    FirstOfCode(200, SUCCESS);
    RedirectionFirst();
    ClientErrorFirst();
    ServerErrorFirst();
  }

  lemma RedirectionFirst()
    ensures ForCode(300) == Ok(REDIRECTION)
  {
    forall t: HttpStatus | t < REDIRECTION ensures Code(t) != 300 { }
    FirstOfCode(300, REDIRECTION);
  }

  lemma ClientErrorFirst()
    ensures ForCode(400) == Ok(CLIENT_ERROR)
  {
    forall t: HttpStatus | t < CLIENT_ERROR ensures Code(t) != 400 { }
    FirstOfCode(400, CLIENT_ERROR);
  }

  lemma ServerErrorFirst()
    ensures ForCode(500) == Ok(SERVER_ERROR)
  {
    forall t: HttpStatus | t < SERVER_ERROR ensures Code(t) != 500 { }
    FirstOfCode(500, SERVER_ERROR);
  }

  /** `forCode` returns `s` when `s` has the code and no earlier constant has it. */
  lemma FirstOfCode(code: int, s: HttpStatus)
    requires Code(s) == code
    requires forall t: HttpStatus :: t < s ==> Code(t) != code
    ensures ForCode(code) == Ok(s)
  {
  }

  /** Codes that no constant declares: 306, 418 (commented out in the enumeration) and 509. */
  lemma ForCodeUndeclaredExamples()
    ensures ForCode(306).Err? && ForCode(418).Err? && ForCode(509).Err?
  {
    forall t: HttpStatus
      ensures Code(t) != 306 && Code(t) != 418 && Code(t) != 509
    {
    }
  }
}
