/**
 * The application's error catalogue: the `ApiExceptions` enum with its
 * messages and HTTP status mapping, and the `ApiException` it is thrown in.
 */
module Exceptions {
  import opened Wrappers
  import ApiResponse

  /** The cases of the backed enum `ApiExceptions`. */
  datatype ApiExceptions = Unknown | InvalidCredentials

  /** The backing value: the HTTP status in the thousands, a serial number below. */
  function Value(t: ApiExceptions): int {
    match t
    case Unknown => 500_999
    case InvalidCredentials => 401_001
  }

  /** The case name, as `$this->type->name` gives it. */
  function Name(t: ApiExceptions): string {
    match t
    case Unknown => "UNKNOWN"
    case InvalidCredentials => "INVALID_CREDENTIALS"
  }

  /** `getMessage()`. */
  function Message(t: ApiExceptions): string {
    match t
    case Unknown => "An unknown error occurred."
    case InvalidCredentials => "Invalid credentials provided."
  }

  /** The statuses the thresholds can produce. */
  const STATUSES: set<int> := {500, 429, 422, 415, 405, 404, 403, 401, 400}

  /**
   * `getStatusCode()` as written: the first threshold the value reaches, in
   * the order 500, 422, 429, 415, 405, 404, 403, 401, 400; 500 below all.
   */
  function StatusForValueAsWritten(value: int): int {
    if value >= 500_000 then 500
    else if value >= 422_000 then 422
    else if value >= 429_000 then 429
    else if value >= 415_000 then 415
    else if value >= 405_000 then 405
    else if value >= 404_000 then 404
    else if value >= 403_000 then 403
    else if value >= 401_000 then 401
    else if value >= 400_000 then 400
    else 500
  }

  /** The mapping with the thresholds in descending order, 429 before 422. */
  function StatusForValue(value: int): int {
    if value >= 500_000 then 500
    else if value >= 429_000 then 429
    else if value >= 422_000 then 422
    else if value >= 415_000 then 415
    else if value >= 405_000 then 405
    else if value >= 404_000 then 404
    else if value >= 403_000 then 403
    else if value >= 401_000 then 401
    else if value >= 400_000 then 400
    else 500
  }

  /**
   * `getStatusCode()` of a case, with the thresholds in the order written;
   * MappingsAgreeOutside429 shows that no case tells the two orders apart.
   */
  function StatusCode(t: ApiExceptions): int {
    StatusForValueAsWritten(Value(t))
  }

  /**
   * As written, no value maps to 429: every value from 429000 up is caught by
   * the 422 threshold first, so 429xxx values map to 422.
   */
  lemma {:induction false} AsWrittenNever429(value: int)
    ensures StatusForValueAsWritten(value) in STATUSES - {429}
    ensures 429_000 <= value < 500_000 ==> StatusForValueAsWritten(value) == 422
    ensures StatusForValueAsWritten(429_001) == 422
  {
  }

  /**
   * With descending thresholds every status is the hundred-thousands block
   * of the value (rounded down to the nearest threshold), 429 included;
   * values below 400000 map to 500.
   */
  lemma {:induction false} StatusForValueBlocks(value: int)
    ensures StatusForValue(value) in STATUSES
    ensures StatusForValue(value) == 429 <==> 429_000 <= value < 500_000
    ensures StatusForValue(value) == 422 <==> 422_000 <= value < 429_000
    ensures value < 400_000 ==> StatusForValue(value) == 500
    ensures 400_000 <= value < 500_000 ==> StatusForValue(value) * 1000 <= value
    ensures value >= 500_000 ==> StatusForValue(value) == 500
  {
  }

  /** The two mappings differ only on the 429 block, and agree on every case of the enum. */
  lemma {:induction false} MappingsAgreeOutside429(value: int, t: ApiExceptions)
    ensures StatusForValueAsWritten(value) != StatusForValue(value) <==> 429_000 <= value < 500_000
    ensures StatusCode(t) == StatusForValue(Value(t))
  {
  }

  /** The catalogue entries: status, message and name of each case. */
  lemma {:induction false} Catalogue()
    ensures StatusCode(InvalidCredentials) == 401 && Message(InvalidCredentials) == "Invalid credentials provided."
    ensures Name(InvalidCredentials) == "INVALID_CREDENTIALS" && Value(InvalidCredentials) == 401_001
    ensures StatusCode(Unknown) == 500 && Message(Unknown) == "An unknown error occurred."
    ensures Name(Unknown) == "UNKNOWN" && Value(Unknown) == 500_999
  {
  }

  // ---------------------------------------------------------------------
  // ApiException
  // ---------------------------------------------------------------------

  /** An `ApiException`: its fields are set once, by `new`. */
  datatype ApiException = ApiException(
    message: string,
    exceptionType: ApiExceptions,
    statusCode: int,
    details: seq<ApiResponse.Entry>)

  /**
   * `ApiException::new($type = UNKNOWN, $message = null, $statusCode = null, $details = [])`:
   * a missing message or status is taken from the type.
   */
  function New(exceptionType: ApiExceptions := Unknown, message: Option<string> := None,
               statusCode: Option<int> := None, details: seq<ApiResponse.Entry> := []): ApiException
  {
    ApiException(
      if message.Some? then message.value else Message(exceptionType),
      exceptionType,
      if statusCode.Some? then statusCode.value else StatusCode(exceptionType),
      details)
  }

  function GetTypeName(e: ApiException): string {
    Name(e.exceptionType)
  }

  function GetStatusCode(e: ApiException): int {
    e.statusCode
  }

  function GetDetails(e: ApiException): seq<ApiResponse.Entry> {
    e.details
  }

  /**
   * What `new` fills in: the type defaults to UNKNOWN and the details to
   * none; without a message the type's message, without a status the type's
   * status; whatever is given is kept.
   */
  lemma {:induction false} NewDefaults(t: ApiExceptions, m: string, s: int, d: seq<ApiResponse.Entry>)
    ensures New().exceptionType == Unknown && GetDetails(New()) == []
    ensures New(t).message == Message(t) && GetStatusCode(New(t)) == StatusCode(t)
    ensures GetTypeName(New(t)) == Name(t)
    ensures var e := New(t, Some(m), Some(s), d);
      e.message == m && GetStatusCode(e) == s && GetDetails(e) == d && GetTypeName(e) == Name(t)
    ensures New(InvalidCredentials) == ApiException("Invalid credentials provided.", InvalidCredentials, 401, [])
    ensures GetTypeName(New(InvalidCredentials)) == "INVALID_CREDENTIALS"
  {
  }
}
