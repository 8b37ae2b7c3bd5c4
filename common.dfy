/** Values shared by every part of the model: optional values and document ids. */
module Common {

  /** A value that may be absent (`undefined` or `null` in the source). */
  datatype Option<+T> = None | Some(value: T) {
    function GetOr(default: T): T {
      match this
      case Some(v) => v
      case None => default
    }
  }

  /** A success value or an error value. */
  datatype Result<+T, +E> = Ok(value: T) | Err(error: E)

  /** A MongoDB ObjectId; only equality and freshness matter to the model. */
  type ObjectId = nat

  /** JavaScript truthiness of a request-body field that is a string or absent:
      `!field` holds exactly for an absent field and for the empty string. */
  predicate Present(field: Option<string>) {
    field.Some? && field.value != ""
  }

  function Max(a: nat, b: nat): (m: nat)
    ensures a <= m && b <= m && (m == a || m == b)
  {
    if a < b then b else a
  }
}
