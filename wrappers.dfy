/** Optional values (a field the source may leave `undefined` or `null`)
    and JavaScript's `a || b` on them: `a` when it is truthy, otherwise `b`. */
module Wrappers {

  datatype Option<+T> = None | Some(value: T)

  /** `s || d` for an optional string: absent and `""` are falsy. */
  function StringOr(s: Option<string>, d: string): (r: string)
    ensures r == d || (s.Some? && r == s.value && r != "")
    ensures (s.Some? && s.value != "") ==> r == s.value
  {
    if s.Some? && s.value != "" then s.value else d
  }

  /** `n || d` for an optional integer-valued number: absent and `0` are
      falsy. */
  function IntOr(n: Option<int>, d: int): (r: int)
    ensures r == d || (n.Some? && r == n.value && r != 0)
    ensures (n.Some? && n.value != 0) ==> r == n.value
  {
    if n.Some? && n.value != 0 then n.value else d
  }

  /** `!!b` for an optional boolean: only a present `true` is truthy. */
  predicate IsTrue(b: Option<bool>) {
    b == Some(true)
  }
}
