/** Option and the C# exceptions the modelled code can raise, as values. */
module Wrappers {

  /** A nullable reference or value: None stands for C# null. */
  datatype Option<+T> = None | Some(value: T) {
    /** The `??` operator. */
    function GetOr(default: T): T {
      match this
      case Some(v) => v
      case None => default
    }
  }

  /** The .NET exceptions raised on the modelled code paths. */
  datatype Exception =
    | NullReference       // member access on null
    | ArgumentNull        // a LINQ extension method (ToDictionary) called on null
    | KeyNotFound         // Dictionary indexer on a missing key
    | InvalidCast         // unboxing an object to the wrong type
    | InvalidOperation    // Enumerable.Last() on an empty sequence
    | NotSupported        // NullNodeSerializer.Serialize / Deserialize
    | DuplicateKey        // ToDictionary meeting a key twice (ArgumentException)

  /** The result of a call that either returns a value or throws. */
  datatype Outcome<+T> = Ok(value: T) | Throws(error: Exception)
}
