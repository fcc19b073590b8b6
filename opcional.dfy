/** Optional values, and JavaScript's truthiness test on an optional string. */
module Opcional {

  /** A value that may be missing (`undefined` or `null` in the page's data). */
  datatype Option<+T> = None | Some(value: T)

  /** `if (s)` on a string field: false for a missing field and for `''`. */
  predicate TieneTexto(o: Option<string>)
  {
    o.Some? && o.value != ""
  }

  /** `s || alternativa`: the field when it is truthy, the alternative otherwise. */
  function TextoO(o: Option<string>, alternativa: string): (r: string)
    ensures TieneTexto(o) ==> r == o.value && r != ""
    ensures !TieneTexto(o) ==> r == alternativa
  {
    if o.Some? && o.value != "" then o.value else alternativa
  }
}
