/** The uniform response envelope and its static factories. An absent (`None`) field is one the JSON
    body leaves out. */
module ApiResponses {
  import opened Wrappers
  import opened Models

  datatype ErrorDetails = ErrorDetails(code: int, errorType: string, fieldErrors: Option<map<string, string>>)

  datatype ApiResponse<T> = ApiResponse(
    success: bool,
    message: Option<string>,
    data: Option<T>,
    error: Option<ErrorDetails>,
    timestamp: Timestamp)

  /** The shape every factory produces: `data` and `error` are never both present, and a response
      carries error details exactly when it reports failure. */
  predicate WellFormed<T>(r: ApiResponse<T>) {
    && !(r.data.Some? && r.error.Some?)
    && (r.success <==> r.error.None?)
  }

  const DEFAULT_SUCCESS_MESSAGE := "Operation completed successfully"
  const DEFAULT_CREATED_MESSAGE := "Resource created successfully"
  const DEFAULT_DELETED_MESSAGE := "Resource deleted successfully"

  function SuccessWith<T>(data: T, message: string, now: Timestamp): (r: ApiResponse<T>)
    ensures WellFormed(r) && r.success
    ensures r.data == Some(data) && r.error.None? && r.message == Some(message) && r.timestamp == now
  {
    ApiResponse(true, Some(message), Some(data), None, now)
  }

  function Success<T>(data: T, now: Timestamp): (r: ApiResponse<T>)
    ensures WellFormed(r) && r.success
    ensures r.data == Some(data) && r.message == Some(DEFAULT_SUCCESS_MESSAGE)
  {
    SuccessWith(data, DEFAULT_SUCCESS_MESSAGE, now)
  }

  /** The created factories build the same envelope as the success ones; only the default message differs. */
  function CreatedWith<T>(data: T, message: string, now: Timestamp): (r: ApiResponse<T>)
    ensures WellFormed(r) && r.success
    ensures r.data == Some(data) && r.error.None? && r.message == Some(message) && r.timestamp == now
  {
    ApiResponse(true, Some(message), Some(data), None, now)
  }

  function Created<T>(data: T, now: Timestamp): (r: ApiResponse<T>)
    ensures WellFormed(r) && r.success
    ensures r.data == Some(data) && r.message == Some(DEFAULT_CREATED_MESSAGE)
  {
    CreatedWith(data, DEFAULT_CREATED_MESSAGE, now)
  }

  /** The deleted factories carry neither data nor error. */
  function DeletedWith<T>(message: string, now: Timestamp): (r: ApiResponse<T>)
    ensures WellFormed(r) && r.success
    ensures r.data.None? && r.error.None? && r.message == Some(message) && r.timestamp == now
  {
    ApiResponse(true, Some(message), None, None, now)
  }

  function Deleted<T>(now: Timestamp): (r: ApiResponse<T>)
    ensures WellFormed(r) && r.success
    ensures r.data.None? && r.message == Some(DEFAULT_DELETED_MESSAGE)
  {
    DeletedWith(DEFAULT_DELETED_MESSAGE, now)
  }

  /** The three-argument error: no data, and error details without field errors. */
  function Error<T>(code: int, errorType: string, message: Option<string>, now: Timestamp): (r: ApiResponse<T>)
    ensures WellFormed(r) && !r.success
    ensures r.data.None? && r.error == Some(ErrorDetails(code, errorType, None))
    ensures r.message == message && r.timestamp == now
  {
    ApiResponse(false, message, None, Some(ErrorDetails(code, errorType, None)), now)
  }

  /** The four-argument error carries the given field map. */
  function ErrorWithFields<T>(code: int, errorType: string, message: Option<string>,
                              fieldErrors: map<string, string>, now: Timestamp): (r: ApiResponse<T>)
    ensures WellFormed(r) && !r.success
    ensures r.data.None? && r.error == Some(ErrorDetails(code, errorType, Some(fieldErrors)))
    ensures r.message == message && r.timestamp == now
  {
    ApiResponse(false, message, None, Some(ErrorDetails(code, errorType, Some(fieldErrors))), now)
  }

  /** Every factory builds a well-formed envelope: never both data and error, and error details exactly
      when the response reports failure. */
  lemma EveryFactoryIsWellFormed<T>(data: T, message: string, code: int, errorType: string,
                                    fieldErrors: map<string, string>, now: Timestamp)
    ensures WellFormed(Success(data, now)) && WellFormed(SuccessWith(data, message, now))
    ensures WellFormed(Created(data, now)) && WellFormed(CreatedWith(data, message, now))
    ensures WellFormed(Deleted<T>(now)) && WellFormed(DeletedWith<T>(message, now))
    ensures WellFormed(Error<T>(code, errorType, Some(message), now))
    ensures WellFormed(ErrorWithFields<T>(code, errorType, Some(message), fieldErrors, now))
    ensures Success(data, now).success && CreatedWith(data, message, now).success && Deleted<T>(now).success
    ensures !Error<T>(code, errorType, Some(message), now).success
    ensures !ErrorWithFields<T>(code, errorType, Some(message), fieldErrors, now).success
  {
  }
}
