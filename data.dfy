/** Small value wrappers shared by the other modules. */
module DataTypes {

  /** An optional value (the library's `Option`). */
  datatype Option<+T> = None | Some(value: T) {

    /** `getOrElse`: the value when present, otherwise the fallback. */
    function GetOrElse(fallback: T): T
    {
      match this
      case Some(v) => v
      case None => fallback
    }
  }

  /** A pure result that is either an error (`Left`) or a value (`Right`). */
  datatype Either<+E, +A> = Left(left: E) | Right(right: A)
}
