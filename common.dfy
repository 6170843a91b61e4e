/**
 * Option and Result values shared by every module of the model.
 * `None` stands for Python's `None` / SQL NULL; `Err` stands for a raised
 * exception or an early error reply.
 */
module Common {

  datatype Option<T> = None | Some(value: T) {
    function GetOr(default: T): T {
      match this
      case Some(v) => v
      case None => default
    }
  }

  datatype Result<T, E> = Ok(value: T) | Err(error: E)

  /** Python truthiness of an optional integer: `None` and `0` are falsy. */
  predicate TruthyInt(x: Option<int>) {
    x.Some? && x.value != 0
  }

  /** Python's `a or b` on optional integers, as in `thread_id or id`. */
  function OrInt(a: Option<int>, b: int): (r: int)
    ensures TruthyInt(a) ==> r == a.value
    ensures !TruthyInt(a) ==> r == b
  {
    if TruthyInt(a) then a.value else b
  }

  /** Python's `s or default` on an optional string: `None` and `""` are falsy. */
  function OrStr(a: Option<string>, default: string): (r: string)
    ensures a.Some? && a.value != "" ==> r == a.value
    ensures a.None? || a.value == "" ==> r == default
  {
    if a.Some? && a.value != "" then a.value else default
  }
}
