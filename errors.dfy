/** errors.rs: the application error, its `Display` text, the HTTP response each variant becomes,
    and the `From` conversions that wrap library errors. A wrapped library error is represented
    by its own `Display` text, `cause`, since its internals are not visible. */
module Errors {

  datatype AppError =
    | ActixError(cause: string)
    | IOError(cause: string)
    | NotFound(cause: string)
    | SystemTimeError(cause: string)
    | RedisError(cause: string)
    | SerdeError(cause: string)
    | CreatePoolError(cause: string)
    | PoolError(cause: string)

  /** The text `Display` writes before the wrapped error or message (errors.rs:22-31). */
  function Prefix(e: AppError): string {
    match e
    case PoolError(_) => "Pool error: "
    case CreatePoolError(_) => "Create pool error: "
    case ActixError(_) => "Actix error: "
    case IOError(_) => "I/O error: "
    case NotFound(_) => "Resource not found: "
    case SystemTimeError(_) => "System time error: "
    case RedisError(_) => "Redis error: "
    case SerdeError(_) => "Serialization error: "
  }

  /** `Display for AppError` (errors.rs:20-33). */
  function Display(e: AppError): string {
    Prefix(e) + e.cause
  }

  /** No two errors print alike: the variant and the wrapped text can both be read back from
      the `Display` string, because the eight prefixes already differ in their first three
      characters. */
  lemma DisplayInjective(e1: AppError, e2: AppError)
    requires Display(e1) == Display(e2)
    ensures e1 == e2
  {
    var p1, p2 := Prefix(e1), Prefix(e2);
    assert Display(e1)[0] == p1[0] && Display(e1)[2] == p1[2];
    assert Display(e2)[0] == p2[0] && Display(e2)[2] == p2[2];
    assert Tag(e1) == Tag(e2);
    assert e1.cause == Display(e1)[|p1|..];
    assert e2.cause == Display(e2)[|p2|..];
  }

  /** Which variant an error is, as a number. */
  function Tag(e: AppError): nat {
    match e
    case ActixError(_) => 0
    case IOError(_) => 1
    case NotFound(_) => 2
    case SystemTimeError(_) => 3
    case RedisError(_) => 4
    case SerdeError(_) => 5
    case CreatePoolError(_) => 6
    case PoolError(_) => 7
  }

  /** The JSON body `{"error": ..., "message": ...}` and the status it is sent with. */
  datatype ErrorBody = ErrorBody(error: string, message: string)

  datatype HttpErrorResponse = HttpErrorResponse(status: int, body: ErrorBody)

  /** `error_response` (errors.rs:36-53). */
  function ErrorResponse(e: AppError): HttpErrorResponse {
    match e
    case NotFound(_) => HttpErrorResponse(404, ErrorBody("Not Found", Display(e)))
    case SystemTimeError(_) => HttpErrorResponse(400, ErrorBody("Bad Request", Display(e)))
    case _ => HttpErrorResponse(500, ErrorBody("Internal Server Error", Display(e)))
  }

  /** Only a missing resource is a 404 and only a clock error is a 400; every other variant is a
      500. The `error` text names the status, and the message is always the `Display` string,
      so the response tells the errors apart even where the status does not. */
  lemma ErrorResponseSpec(e: AppError)
    ensures ErrorResponse(e).status == 404 <==> e.NotFound?
    ensures ErrorResponse(e).status == 400 <==> e.SystemTimeError?
    ensures ErrorResponse(e).status == 500 <==> !e.NotFound? && !e.SystemTimeError?
    ensures ErrorResponse(e).body.error == StatusText(ErrorResponse(e).status)
    ensures ErrorResponse(e).body.message == Display(e)
  {
  }

  /** Two errors with the same response body are the same error. */
  lemma ErrorResponseInjective(e1: AppError, e2: AppError)
    requires ErrorResponse(e1).body == ErrorResponse(e2).body
    ensures e1 == e2
  {
    DisplayInjective(e1, e2);
  }

  /** The reason phrase of the three statuses used. */
  function StatusText(status: int): string {
    if status == 404 then "Not Found"
    else if status == 400 then "Bad Request"
    else "Internal Server Error"
  }

  /** The library errors with a `From` conversion (errors.rs:56-96); `NotFound` has none. */
  datatype Source = FromSerde | FromRedis | FromSystemTime | FromActix | FromIo | FromCreatePool | FromPool

  /** `From<E> for AppError`: wraps the error in the variant named after it. */
  function Convert(src: Source, cause: string): AppError {
    match src
    case FromSerde => SerdeError(cause)
    case FromRedis => RedisError(cause)
    case FromSystemTime => SystemTimeError(cause)
    case FromActix => ActixError(cause)
    case FromIo => IOError(cause)
    case FromCreatePool => CreatePoolError(cause)
    case FromPool => PoolError(cause)
  }

  /** A conversion keeps the wrapped error as it is, never yields `NotFound`, and different
      library errors land in different variants. */
  lemma ConvertSpec(src1: Source, src2: Source, cause: string)
    ensures Convert(src1, cause).cause == cause
    ensures !Convert(src1, cause).NotFound?
    ensures Tag(Convert(src1, cause)) == Tag(Convert(src2, cause)) <==> src1 == src2
  {
  }

  /** Only a `?` on a `SystemTimeError` turns into a client error; every other converted
      library error is a 500. */
  lemma ConvertStatus(src: Source, cause: string)
    ensures ErrorResponse(Convert(src, cause)).status == if src == FromSystemTime then 400 else 500
  {
  }
}
