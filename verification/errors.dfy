/** The error values of the recipe crate: the message-carrying `ParseError`
    of the recipe format and the crate-wide error enum of the directory
    operations. */
module Errors {

  /** A recipe-format error: its message. */
  datatype ParseError = ParseError(message: string)

  /** `ParseError::empty`: the error for a part that must not be blank. */
  function Empty(what: string): ParseError {
    ParseError(what + " must contain non-whitespace characters")
  }

  /** The kinds of file-system failure the directory operations report. */
  datatype IoErrorKind = AlreadyExists | NotFound

  /** The crate error enum, restricted to the variants the directory
      operations produce. */
  datatype Error =
    | EmptyRecipeTitle
    | InvalidImageFileExt(ext: string)
    | MissingImageFileExt(path: string)
    | Parse(parseError: ParseError)
    | Io(kind: IoErrorKind)
}
