/** Vocabulary shared by every module: optional values, service results and row ids. */
module Base {

  datatype Option<+T> = None | Some(value: T)

  /** The HTTP-level failures a service can raise. */
  datatype Error =
    | NotFound
    | Cycle            // moving a folder into its own branch
    | TooDeep          // more than MAX_FOLDER_DEPTH levels
    | Conflict        // unique index violation, reported as 409
    | TooLarge
    | UnsupportedType
    | ForeignKey       // storage key of another room
    | NoObject
    | SizeMismatch
    | Forbidden

  datatype Result<+T> = Ok(value: T) | Err(error: Error)

  predicate IsIdChar(c: char) {
    '0' <= c <= '9' || 'a' <= c <= 'f' || c == '-'
  }

  predicate IsId(s: string) {
    s != "" && forall k :: 0 <= k < |s| ==> IsIdChar(s[k])
  }

  /** A UUID as PostgreSQL prints it: lower-case hex digits and dashes, never empty. */
  type Id = s: string | IsId(s)
    witness "0"
}
