/**
 * The render table of the application's exception handler: which thrown
 * exception becomes which error envelope.
 */
module ExceptionRendering {
  import opened Wrappers
  import opened ApiResponse
  import opened Exceptions

  /** The exceptions the table distinguishes; any other throwable is Other. */
  datatype Thrown =
    | ApiError(e: ApiException)               // App\Exceptions\ApiException
    | RouteNotFound                           // NotFoundHttpException
    | ValidationFailed(errors: seq<Entry>)    // ValidationException and its `errors()`
    | Unauthenticated                         // AuthenticationException
    | AccessDenied                            // AccessDeniedHttpException
    | Other

  /** A render callback either answers with a response or declines, leaving the framework's default rendering. */
  datatype Rendered = Rendered(response: JsonResponse) | Unhandled

  const UNEXPECTED_ERROR_MESSAGE: string := "An unexpected error occurred."

  /** The callbacks for the five named exception kinds. */
  function RenderKnown(camel: string -> string, thrown: Thrown): Rendered
    requires !thrown.Other?
  {
    match thrown
    case ApiError(e) => Rendered(ErrorEnvelope(camel, e.message, GetTypeName(e), GetStatusCode(e), GetDetails(e)))
    case RouteNotFound => Rendered(ErrorEnvelope(camel, "Resource route not found", "ROUTE_NOT_FOUND", 404))
    case ValidationFailed(errors) =>
      Rendered(ErrorEnvelope(camel, "The given data was invalid.", "VALIDATION_ERROR", 422, errors))
    case Unauthenticated => Rendered(ErrorEnvelope(camel, "Unauthenticated.", "UNAUTHENTICATED", 401))
    case AccessDenied => Rendered(ErrorEnvelope(camel, "Forbidden.", "FORBIDDEN", 403))
  }

  /**
   * The table as written. The production catch-all builds the generic
   * envelope but does not return it, so the callback declines, exactly as
   * when no catch-all is registered.
   */
  function RenderAsWritten(camel: string -> string, thrown: Thrown, production: bool): Rendered {
    if thrown.Other? then Unhandled else RenderKnown(camel, thrown)
  }

  /** The table with the production catch-all returning the envelope it builds. */
  function Render(camel: string -> string, thrown: Thrown, production: bool): Rendered {
    if thrown.Other? then
      if production then Rendered(ErrorEnvelope(camel, UNEXPECTED_ERROR_MESSAGE, "UNEXPECTED_ERROR")) else Unhandled
    else RenderKnown(camel, thrown)
  }

  /** As written, an unexpected exception never gets the envelope, in production or not. */
  lemma {:induction false} CatchAllDeclines(camel: string -> string, production: bool)
    ensures RenderAsWritten(camel, Other, production) == Unhandled
    ensures RenderAsWritten(camel, Other, true) != Render(camel, Other, true)
  {
  }

  /**
   * With the catch-all returning, every exception in production is rendered,
   * an unexpected one as UNEXPECTED_ERROR with status 500 and no details;
   * outside production only the unexpected ones are left to the framework.
   */
  lemma {:induction false} CatchAllRenders(camel: string -> string, thrown: Thrown, production: bool)
    ensures production ==> Render(camel, thrown, production).Rendered?
    ensures !production ==> (Render(camel, thrown, production).Rendered? <==> !thrown.Other?)
    ensures Render(camel, Other, true) ==
            Rendered(ErrorEnvelope(camel, "An unexpected error occurred.", "UNEXPECTED_ERROR", 500, []))
  {
  }

  /** The two tables agree on every exception but the unexpected ones. */
  lemma {:induction false} TablesAgreeOnKnown(camel: string -> string, thrown: Thrown, production: bool)
    requires !thrown.Other?
    ensures RenderAsWritten(camel, thrown, production) == Render(camel, thrown, production)
  {
  }

  /** The status and code each kind renders with. */
  function ExpectedStatusAndCode(thrown: Thrown): (int, string)
    requires !thrown.Other?
  {
    match thrown
    case ApiError(e) => (e.statusCode, Name(e.exceptionType))
    case RouteNotFound => (404, "ROUTE_NOT_FOUND")
    case ValidationFailed(_) => (422, "VALIDATION_ERROR")
    case Unauthenticated => (401, "UNAUTHENTICATED")
    case AccessDenied => (403, "FORBIDDEN")
  }

  /**
   * Every rendering is an error envelope (success false, data null, meta
   * empty) carrying the kind's status and code; only an ApiException and a
   * validation failure bring details, the field errors for the latter.
   */
  lemma {:induction false} RenderedEnvelope(camel: string -> string, thrown: Thrown, production: bool)
    requires Render(camel, thrown, production).Rendered?
    ensures var r := Render(camel, thrown, production).response;
      && r.body.Arr?
      && Lookup(r.body.entries, StrKey("success")) == Some(Prim(Bool(false)))
      && Lookup(r.body.entries, StrKey("data")) == Some(Null)
      && Lookup(r.body.entries, StrKey("meta")) == Some(Arr([]))
      && Lookup(r.body.entries, StrKey("error")).Some?
      && var error := Lookup(r.body.entries, StrKey("error")).value;
      && error.Arr? && |error.entries| == 3
      && (thrown.Other? ==> r.status == 500 && error.entries[0] == Entry(StrKey("code"), Prim(Str("UNEXPECTED_ERROR"))))
      && (!thrown.Other? ==>
            r.status == ExpectedStatusAndCode(thrown).0
            && error.entries[0] == Entry(StrKey("code"), Prim(Str(ExpectedStatusAndCode(thrown).1))))
      && (thrown.ValidationFailed? ==> error.entries[2] == Entry(StrKey("details"), Transform(camel, Arr(thrown.errors))))
      && (thrown.ApiError? ==> error.entries[2] == Entry(StrKey("details"), Transform(camel, Arr(thrown.e.details))))
      && (!thrown.ValidationFailed? && !thrown.ApiError? ==> error.entries[2] == Entry(StrKey("details"), Arr([])))
  {
    var r := Render(camel, thrown, production).response;
    var (message, code, status, details) := match thrown
      case ApiError(e) => (e.message, GetTypeName(e), GetStatusCode(e), GetDetails(e))
      case RouteNotFound => ("Resource route not found", "ROUTE_NOT_FOUND", 404, [])
      case ValidationFailed(errors) => ("The given data was invalid.", "VALIDATION_ERROR", 422, errors)
      case Unauthenticated => ("Unauthenticated.", "UNAUTHENTICATED", 401, [])
      case AccessDenied => ("Forbidden.", "FORBIDDEN", 403, [])
      case Other => (UNEXPECTED_ERROR_MESSAGE, "UNEXPECTED_ERROR", 500, []);
    assert r == ErrorEnvelope(camel, message, code, status, details);
    ErrorEnvelopeShape(camel, camel, message, code, status, details);
  }

  /** The credential rejection of the login renders as INVALID_CREDENTIALS, 401, with its message and no details. */
  lemma {:induction false} InvalidCredentialsRendering(camel: string -> string, production: bool)
    ensures Render(camel, ApiError(New(InvalidCredentials)), production) ==
            Rendered(ErrorEnvelope(camel, "Invalid credentials provided.", "INVALID_CREDENTIALS", 401, []))
  {
  }
}
