/** Shared result and error types for every service of the backend, and the
    fresh-key supply that stands for the database's generated uuids. */
module Wrappers {

  datatype Option<+T> = None | Some(value: T) {
    function GetOr(default: T): T {
      match this
      case Some(v) => v
      case None => default
    }
  }

  /** The HTTP exception kinds the services throw, each with its message. */
  datatype Error =
    | NotFound(message: string)
    | BadRequest(message: string)
    | Unauthorized(message: string)

  datatype Result<+T> = Ok(value: T) | Err(error: Error)

  /** JavaScript truthiness of an optional string: neither undefined/null nor "". */
  predicate Truthy(s: Option<string>) {
    s.Some? && s.value != ""
  }

  /** The longest key of a finite set of strings. */
  ghost function MaxLength(keys: set<string>): nat
  {
    if keys == {} then 0
    else
      var k :| k in keys;
      var rest := MaxLength(keys - {k});
      if |k| > rest then |k| else rest
  }

  lemma {:induction false} MaxLengthBounds(keys: set<string>, k: string)
    requires k in keys
    ensures |k| <= MaxLength(keys)
  {
    var x :| x in keys && MaxLength(keys) == (var rest := MaxLength(keys - {x}); if |x| > rest then |x| else rest);
    if k != x {
      MaxLengthBounds(keys - {x}, k);
    }
  }

  /** Every table has room for one more generated key: a string longer than
      every key in use is not in use. */
  lemma FreshKeyExists(keys: set<string>)
    ensures exists k: string :: k !in keys
  {
    var k := seq(MaxLength(keys) + 1, _ => 'k');
    if k in keys {
      MaxLengthBounds(keys, k);
    }
  }
}
