/** Optional values, and the JavaScript truthiness rules the portal leans on
    when it writes `value || fallback` over a `string | null`. */
module Wrappers {

  datatype Option<+T> = None | Some(value: T)

  /** A `string | null` is truthy when it is present and not the empty string. */
  predicate Truthy(s: Option<string>) {
    s.Some? && s.value != ""
  }

  /** JavaScript's `s || fallback` on a `string | null`. */
  function OrElse(s: Option<string>, fallback: string): (r: string)
    ensures Truthy(s) ==> r == s.value
    ensures !Truthy(s) ==> r == fallback
  {
    if Truthy(s) then s.value else fallback
  }

  /** JavaScript's `s || null` on a form string: the empty string becomes null. */
  function NullIfEmpty(s: string): (r: Option<string>)
    ensures r.None? <==> s == ""
    ensures r.Some? ==> r.value == s
  {
    if s == "" then None else Some(s)
  }

  /** Reading back a stored optional field into a form (`s || ""`) and storing
      it again (`value || null`) gives back what was stored, unless the stored
      value was the empty string, which comes back as null. */
  lemma NullIfEmptyOrElse(s: Option<string>)
    ensures NullIfEmpty(OrElse(s, "")) == (if Truthy(s) then s else None)
  {
  }
}
