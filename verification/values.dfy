/** Shared vocabulary of the reactive runtime: JavaScript values as the
    containers store them, property keys of a source, the error conditions
    the operations raise, and the outcome of an operation that notifies. */
module Values {

  datatype Option<+T> = None | Some(value: T) {
    function GetOr(default: T): T {
      match this
      case Some(v) => v
      case None => default
    }
  }

  /** A JavaScript value, as far as the runtime inspects it: it compares
      values with `!==` (structural equality here, reference identity for
      objects) and tests them with `== null` and with truthiness. */
  datatype Value =
    | Undefined
    | Null
    | Bool(b: bool)
    | Num(n: int)
    | Str(s: string)
    | Ref(id: nat)

  /** `v != null` in JavaScript: neither null nor undefined. */
  predicate IsSet(v: Value) {
    !v.Undefined? && !v.Null?
  }

  /** JavaScript truthiness, as used by `lv && lv.value()`. */
  predicate Truthy(v: Value) {
    match v
    case Undefined => false
    case Null => false
    case Bool(b) => b
    case Num(n) => n != 0
    case Str(s) => s != ""
    case Ref(_) => true
  }

  /** An object's own enumerable properties, in `for…in` order. */
  type Object = seq<(string, Value)>

  /** `eachInObject` and `allSetInObject` call `obj.hasOwnProperty(key)`
      for every key. An own property of that name hides the inherited
      method; no value here is a function, so that call throws a
      TypeError. */
  predicate ShadowsHasOwnProperty(obj: Object) {
    exists i :: 0 <= i < |obj| && obj[i].0 == "hasOwnProperty"
  }

  /** A property of a source: a numeric index (list positions) or a name. */
  datatype Key = Pos(i: int) | Name(s: string)

  const SizeKey: Key := Name("_size")
  const DataKey: Key := Name("_data")
  const KeysKey: Key := Name("_keys")
  const IndexKey: Key := Name("_index")
  const ValueKey: Key := Name("_value")

  /** The conditions an operation can throw: the invalid-argument errors the
      containers raise themselves, and the TypeError JavaScript raises when a
      method is called on something that has no such method. */
  datatype Error = InvalidIndex | ReservedKey | TypeError

  datatype Result<+T> = Ok(value: T) | Err(error: Error)

  /** What a mutating container operation leaves behind: the new state (as
      far as it got before a throw), the properties it pushed, in order, and
      the error it threw, if any. */
  datatype Outcome<S, N> = Outcome(state: S, log: seq<N>, error: Option<Error>)
}
