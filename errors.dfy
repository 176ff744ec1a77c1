/** The application-wide error middleware: a first-match table from the
    error's code to an HTTP status and JSON body, with a default that echoes
    the error's own status and message. */
module ErrorHandler {
  import opened Common

  /** The fields of a thrown error the middleware looks at. */
  datatype AppError = AppError(
    code: Option<string>,
    status: Option<int>,
    message: Option<string>,
    stack: Option<string>)

  /** The JSON body: the recognised codes send `error` and `message`, the
      default sends `error` and, in development, `stack`. */
  datatype ErrorBody = ErrorBody(error: string, message: Option<string>, stack: Option<string>)

  datatype ErrorResponse = ErrorResponse(status: int, body: ErrorBody)

  /** The codes with a fixed response, in the order they are tested. */
  datatype Known = FileTooLarge | TooManyFiles | UnexpectedFile | DatabaseFailure | NoSuchFile
  {
    function Code(): string
    {
      match this
      case FileTooLarge => "LIMIT_FILE_SIZE"
      case TooManyFiles => "LIMIT_FILE_COUNT"
      case UnexpectedFile => "LIMIT_UNEXPECTED_FILE"
      case DatabaseFailure => "SQLITE_ERROR"
      case NoSuchFile => "ENOENT"
    }

    function Response(): ErrorResponse
    {
      match this
      case FileTooLarge =>
        ErrorResponse(400, ErrorBody("File too large", Some("File size cannot exceed 50MB"), None))
      case TooManyFiles =>
        ErrorResponse(400, ErrorBody("Too many files", Some("Cannot upload more than 10 files at once"), None))
      case UnexpectedFile =>
        ErrorResponse(400, ErrorBody("Unexpected field", Some("Unexpected file field in request"), None))
      case DatabaseFailure =>
        ErrorResponse(500, ErrorBody("Database error", Some("An error occurred while accessing the database"), None))
      case NoSuchFile =>
        ErrorResponse(404, ErrorBody("File not found", Some("The requested file does not exist"), None))
    }
  }

  const UploadLimitCodes: set<string> := {"LIMIT_FILE_SIZE", "LIMIT_FILE_COUNT", "LIMIT_UNEXPECTED_FILE"}

  const KnownCodes: set<string> := UploadLimitCodes + {"SQLITE_ERROR", "ENOENT"}

  /** The first row of the table whose code matches, if any. */
  function Classify(code: Option<string>): (k: Option<Known>)
    ensures k.Some? <==> code.Some? && code.value in KnownCodes
    ensures k.Some? ==> code == Some(k.value.Code())
  {
    if code == Some("LIMIT_FILE_SIZE") then Some(FileTooLarge)
    else if code == Some("LIMIT_FILE_COUNT") then Some(TooManyFiles)
    else if code == Some("LIMIT_UNEXPECTED_FILE") then Some(UnexpectedFile)
    else if code == Some("SQLITE_ERROR") then Some(DatabaseFailure)
    else if code == Some("ENOENT") then Some(NoSuchFile)
    else None
  }

  /** `err.status || 500`: a missing or zero status becomes 500. */
  function DefaultStatus(status: Option<int>): (r: int)
    ensures status.Some? && status.value != 0 ==> r == status.value
    ensures status.None? || status.value == 0 ==> r == 500
    ensures r != 0
  {
    if status.Some? && status.value != 0 then status.value else 500
  }

  /** `err.message || 'Internal server error'`. */
  function DefaultError(message: Option<string>): (r: string)
    ensures message.Some? && message.value != "" ==> r == message.value
    ensures message.None? || message.value == "" ==> r == "Internal server error"
    ensures r != ""
  {
    if message.Some? && message.value != "" then message.value else "Internal server error"
  }

  predicate Development(env: Option<string>)
  {
    env == Some("development")
  }

  /** The middleware.  `env` is the value of `NODE_ENV`. */
  function Handle(err: AppError, env: Option<string>): (r: ErrorResponse)
    ensures Classify(err.code).Some? ==> r == Classify(err.code).value.Response()
    ensures Classify(err.code).None? ==>
      && r.status == DefaultStatus(err.status)
      && r.body.error == DefaultError(err.message)
      && r.body.message.None?
      && r.body.stack == (if Development(env) then err.stack else None)
    ensures r.body.stack.Some? ==> Development(env) && r.body.stack == err.stack
    ensures r.body.message.Some? <==> Classify(err.code).Some?
  {
    match Classify(err.code)
    case Some(k) => k.Response()
    case None =>
      ErrorResponse(DefaultStatus(err.status), ErrorBody(DefaultError(err.message), None,
                    if Development(env) then err.stack else None))
  }

  /** The three upload-limit codes are client errors, each with its own
      error string. */
  lemma UploadLimitsAreDistinct(a: AppError, b: AppError, env: Option<string>)
    requires a.code.Some? && a.code.value in UploadLimitCodes
    requires b.code.Some? && b.code.value in UploadLimitCodes
    ensures Handle(a, env).status == 400
    ensures Handle(a, env).body.error == Handle(b, env).body.error <==> a.code == b.code
  {
    var ra, rb := Handle(a, env), Handle(b, env);
    assert "File too large" != "Too many files" by { assert "File too large"[0] != "Too many files"[0]; }
    assert "File too large" != "Unexpected field" by { assert "File too large"[0] != "Unexpected field"[0]; }
    assert "Too many files" != "Unexpected field" by { assert "Too many files"[0] != "Unexpected field"[0]; }
  }

  /** The response depends only on the code, not on the status, message or
      stack the error carries, whenever the code is one of the table's. */
  lemma KnownCodeIgnoresDetails(a: AppError, b: AppError, env: Option<string>, env': Option<string>)
    requires a.code == b.code && Classify(a.code).Some?
    ensures Handle(a, env) == Handle(b, env')
  {
  }

  /** Only the exact code `SQLITE_ERROR` is classified as a database error;
      every other SQLite code falls through to the default. */
  lemma OtherSqliteCodesFallThrough(err: AppError, env: Option<string>)
    requires err.code.Some? && err.code.value != "SQLITE_ERROR"
    requires |err.code.value| >= 7 && err.code.value[..7] == "SQLITE_"
    ensures Handle(err, env).status == DefaultStatus(err.status)
    ensures Handle(err, env).body.error == DefaultError(err.message)
    ensures Handle(err, env).body.message.None?
  {
    var c := err.code.value;
    assert c[0] == 'S';
    assert c != "LIMIT_FILE_SIZE" && c != "LIMIT_FILE_COUNT" && c != "LIMIT_UNEXPECTED_FILE" by {
      assert "LIMIT_FILE_SIZE"[0] == 'L' && "LIMIT_FILE_COUNT"[0] == 'L' && "LIMIT_UNEXPECTED_FILE"[0] == 'L';
    }
    assert c != "ENOENT" by { assert "ENOENT"[0] == 'E'; }
  }
}
