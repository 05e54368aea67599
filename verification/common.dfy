/** Vocabulary shared by the route modules: optional values and identifiers. */
module Common {

  /** A value that may be absent: a JSON field left out of a body, a row a lookup did not find. */
  datatype Option<T> = None | Some(value: T) {

    /** The value, or `default` when absent (zod's `.default(...)`). */
    function GetOr(default: T): T {
      match this
      case Some(v) => v
      case None => default
    }
  }

  /** A primary key generated by the database (a UUID, kept as its text). */
  type Id = string
}
