/** Values as the TypeScript sources handle them: optional values (`null` and
    `undefined` both read as `None`), JavaScript truthiness of strings, and the
    keys of a partial update object. */
module JsValues {

  datatype Option<+T> = None | Some(value: T) {
    function GetOr(default: T): T {
      match this
      case Some(v) => v
      case None => default
    }
  }

  /** One key of a partial update object: left out, or present with a value. */
  datatype Patch<+T> = Keep | Put(value: T)

  function Apply<T>(p: Patch<T>, current: T): T {
    match p
    case Keep => current
    case Put(v) => v
  }

  /** `if (s)` on a `string | null | undefined`: only a non-empty string is truthy. */
  predicate Truthy(s: Option<string>) {
    s.Some? && s.value != ""
  }

  /** `s || null`: an empty string becomes null as well. */
  function OrNull(s: Option<string>): (r: Option<string>)
    ensures r.None? <==> !Truthy(s)
    ensures r.Some? ==> r == s
  {
    if Truthy(s) then s else None
  }

  /** `s || ''`. */
  function OrEmpty(s: Option<string>): (r: string)
    ensures r == "" <==> !Truthy(s)
    ensures Truthy(s) ==> r == s.value
  {
    if Truthy(s) then s.value else ""
  }
}
