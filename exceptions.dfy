/** TaskNotFoundException and GlobalExceptionHandler: every failure a handler can raise, mapped to an
    HTTP status and an error envelope. */
module Exceptions {
  import opened Wrappers
  import opened Strings
  import opened Models
  import opened Requests
  import opened ApiResponses

  /** TaskNotFoundException, raised with the id that was looked up. */
  datatype TaskNotFound = TaskNotFound(id: TaskId)

  const NOT_FOUND_PREFIX := "Task not found with id: "

  /** The exception's message: the prefix followed by the id in decimal. */
  function NotFoundMessage(e: TaskNotFound): (m: string)
    ensures NOT_FOUND_PREFIX <= m
  {
    NOT_FOUND_PREFIX + LongToString(e.id)
  }

  /** Reads the id back out of a not-found message. */
  function NotFoundIdOf(m: string): Option<TaskId> {
    if NOT_FOUND_PREFIX <= m then ParseLong(m[|NOT_FOUND_PREFIX|..]) else None
  }

  /** The message names the id exactly: it can be read back, so distinct ids give distinct messages. */
  lemma NotFoundMessageRoundTrip(e: TaskNotFound)
    ensures NotFoundIdOf(NotFoundMessage(e)) == Some(e.id)
  {
    var m := NotFoundMessage(e);
    assert m[|NOT_FOUND_PREFIX|..] == LongToString(e.id);
    LongToStringRoundTrip(e.id);
  }

  lemma NotFoundMessageExample()
    ensures NotFoundMessage(TaskNotFound(999)) == "Task not found with id: 999"
  {
  }

  /** The failures the handlers catch, with what each handler reads from its exception. */
  datatype ApiException =
    | NotFound(notFound: TaskNotFound)
    | Validation(errors: seq<FieldError>)
    | NotReadable
    | IllegalArgument(message: Option<string>)
    | TypeMismatch(value: Option<string>, name: string)
    | Unexpected(detail: Option<string>)

  datatype ResponseEntity<T> = ResponseEntity(status: int, body: T)

  const BAD_REQUEST := 400
  const NOT_FOUND_STATUS := 404
  const INTERNAL_SERVER_ERROR := 500

  const VALIDATION_MESSAGE := "Validation failed for one or more fields"
  const MALFORMED_MESSAGE := "Malformed JSON request"
  const UNEXPECTED_MESSAGE := "An unexpected error occurred"

  /** String.format's rendering of "Invalid value '%s' for parameter '%s'"; a null value prints as "null". */
  function TypeMismatchMessage(value: Option<string>, name: string): (m: string)
    ensures "Invalid value '" <= m
    ensures |m| == |"Invalid value '' for parameter ''"| + |value.GetOr("null")| + |name|
  {
    "Invalid value '" + value.GetOr("null") + "' for parameter '" + name + "'"
  }

  /** The handler table: status, type tag and message per kind of failure. */
  function Handle<T>(ex: ApiException, now: Timestamp): (r: ResponseEntity<ApiResponse<T>>)
    ensures WellFormed(r.body) && !r.body.success && r.body.data.None?
    ensures r.body.error.Some? && r.body.error.value.code == r.status
    ensures r.status == NOT_FOUND_STATUS <==> ex.NotFound?
    ensures r.status == INTERNAL_SERVER_ERROR <==> ex.Unexpected?
    ensures r.status == BAD_REQUEST <==> !ex.NotFound? && !ex.Unexpected?
    ensures r.body.error.value.fieldErrors.Some? <==> ex.Validation?
  {
    match ex
    case NotFound(e) =>
      ResponseEntity(NOT_FOUND_STATUS, Error(NOT_FOUND_STATUS, "NOT_FOUND", Some(NotFoundMessage(e)), now))
    case Validation(errors) =>
      ResponseEntity(BAD_REQUEST, ErrorWithFields(BAD_REQUEST, "VALIDATION_ERROR", Some(VALIDATION_MESSAGE),
                                                  FieldErrorMap(errors), now))
    case NotReadable =>
      ResponseEntity(BAD_REQUEST, Error(BAD_REQUEST, "MALFORMED_REQUEST", Some(MALFORMED_MESSAGE), now))
    case IllegalArgument(message) =>
      ResponseEntity(BAD_REQUEST, Error(BAD_REQUEST, "INVALID_ARGUMENT", message, now))
    case TypeMismatch(value, name) =>
      ResponseEntity(BAD_REQUEST, Error(BAD_REQUEST, "TYPE_MISMATCH", Some(TypeMismatchMessage(value, name)), now))
    case Unexpected(_) =>
      ResponseEntity(INTERNAL_SERVER_ERROR, Error(INTERNAL_SERVER_ERROR, "INTERNAL_ERROR", Some(UNEXPECTED_MESSAGE), now))
  }

  /** The type tag of each kind, and the message: fixed text, or the exception's own for not-found and
      illegal-argument failures. */
  lemma HandleTypesAndMessages<T>(ex: ApiException, now: Timestamp)
    ensures var r := Handle<T>(ex, now);
            && (ex.NotFound? ==> r.body.error.value.errorType == "NOT_FOUND"
                                 && r.body.message == Some("Task not found with id: " + LongToString(ex.notFound.id)))
            && (ex.Validation? ==> r.body.error.value.errorType == "VALIDATION_ERROR"
                                   && r.body.message == Some(VALIDATION_MESSAGE)
                                   && r.body.error.value.fieldErrors == Some(FieldErrorMap(ex.errors)))
            && (ex.NotReadable? ==> r.body.error.value.errorType == "MALFORMED_REQUEST"
                                    && r.body.message == Some(MALFORMED_MESSAGE))
            && (ex.IllegalArgument? ==> r.body.error.value.errorType == "INVALID_ARGUMENT"
                                        && r.body.message == ex.message)
            && (ex.TypeMismatch? ==> r.body.error.value.errorType == "TYPE_MISMATCH"
                                     && r.body.message == Some(TypeMismatchMessage(ex.value, ex.name)))
            && (ex.Unexpected? ==> r.body.error.value.errorType == "INTERNAL_ERROR"
                                   && r.body.message == Some(UNEXPECTED_MESSAGE))
  {
  }

  /** The text of an unexpected exception never reaches the body. */
  lemma UnexpectedDetailIsHidden<T>(d1: Option<string>, d2: Option<string>, now: Timestamp)
    ensures Handle<T>(Unexpected(d1), now) == Handle<T>(Unexpected(d2), now)
  {
  }

  /** handleValidationErrors: the field map filled by a loop over the binding result's field errors. */
  method HandleValidationErrors<T>(errors: seq<FieldError>, now: Timestamp) returns (r: ResponseEntity<ApiResponse<T>>)
    ensures r == Handle(Validation(errors), now)
  {
    var fieldErrors: map<string, string> := map[];
    var i := 0;
    while i < |errors|
      invariant 0 <= i <= |errors|
      invariant fieldErrors == FieldErrorMap(errors[..i])
    {
      assert errors[..i + 1][..i] == errors[..i];
      fieldErrors := fieldErrors[errors[i].field := errors[i].message];
      i := i + 1;
    }
    assert errors[..|errors|] == errors;
    r := ResponseEntity(BAD_REQUEST, ErrorWithFields(BAD_REQUEST, "VALIDATION_ERROR", Some(VALIDATION_MESSAGE),
                                                     fieldErrors, now));
  }
}
