/** Values shared by every layer: optional values and the envelope returned by server actions. */
module Common {

  /** A JavaScript value that may be `undefined`/`null` (None) or present (Some). */
  datatype Option<+T> = None | Some(value: T) {
    /** `this ?? default` */
    function GetOr(default: T): T {
      match this
      case Some(v) => v
      case None => default
    }
  }

  /** `ActionState<T>`: `{ isSuccess: true, message, data }` or `{ isSuccess: false, message }`. */
  datatype ActionState<+T> = Success(message: string, data: T) | Failure(message: string)

  /** JavaScript truthiness of an optional string: `undefined`, `null` and `""` are all falsy. */
  predicate Truthy(s: Option<string>) {
    s.Some? && s.value != ""
  }
}
