/** Shared vocabulary of the model: optional values, fallible results, Go's
    two-valued `(T, error)` returns and the error values the core produces. */
module Base {

  /** A value that may be absent; also stands for a Go value that may be `nil`. */
  datatype Option<+T> = None | Some(value: T)

  /** A computation that either yields a value or fails with an error and no value. */
  datatype Result<+T> = Ok(value: T) | Err(error: Error)

  /** Go's `(T, error)` return: `value` is what the callee returned alongside `err`,
      which matters because several operations return a real value next to an error. */
  datatype Ret<+T> = Ret(value: T, err: Option<Error>)

  /** A Go `string` or `[]byte`. Go strings are byte sequences and the two convert
      into each other unchanged, so one character here stands for one byte. */
  type Bytes = string

  /** The message of a structured error: fixed text, or a `fmt.Sprintf` of a
      template over arguments whose rendering the model leaves uninterpreted. */
  datatype Message = Plain(text: string) | Sprintf(template: string, args: seq<string>)

  datatype Error =
    | Io(id: nat)                                         // a driver, network or codec error the model does not inspect
    | NoRows                                              // database/sql's ErrNoRows sentinel
    | ScanWithoutRow                                      // scanning a cursor before its first Next
    | RowsClosed                                          // scanning a cursor after Next reported the end
    | Text(text: string)                                  // an fmt.Errorf error whose text is fully determined
    | Coded(code: int, reason: string, message: Message)  // the library's own *Error

  /** A structured error whose message is produced from a template on demand. */
  datatype DynamicError = DynamicError(code: int, reason: string, template: string)
  {
    /** Builds the error, keeping code and reason and formatting the message. */
    function Format(args: seq<string>): Error
    {
      Coded(code, reason, Sprintf(template, args))
    }
  }

  const StatusBadRequest: int := 400
  const StatusInternalServerError: int := 500

  /** The schema-mismatch error of both postgres repository packages. */
  const ErrInvalidSchema: DynamicError :=
    DynamicError(StatusInternalServerError, "INVALID_DATABASE_SCHEMA_ERROR",
                 "Mismatch or missing column: %s, Expected: %s, Found: %s")

  /** The error for a sort query parameter naming a column outside the whitelist. */
  const ErrInvalidSortParams: Error :=
    Coded(StatusBadRequest, "INVALID_SORT_PARAMS",
          Plain("Sort parameter is not valid. Please pass valid sort parameters."))
}
