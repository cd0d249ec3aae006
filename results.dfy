/** The failure-carrying values shared by every part of the model. */
module Results {

  /** A value that may be absent: how the model writes a C# `null` reference. */
  datatype Option<+T> = None | Some(value: T)

  /** The exceptions the modelled code lets escape to its caller. */
  datatype Exception =
    | ArgumentNullException(paramName: string)
    /** LINQ `Single` found no element satisfying its predicate. */
    | NoMatchingElement
    /** LINQ `Single`/`SingleOrDefault` found two or more elements satisfying its predicate. */
    | MoreThanOneMatchingElement

  /** Either the value an operation returns or the exception it throws. */
  datatype Result<+T> = Ok(value: T) | Err(error: Exception)
}
