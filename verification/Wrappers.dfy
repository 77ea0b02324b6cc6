/** An optional value, and what a non-empty sequence has. */
module Wrappers {
  datatype Option<+T> = None | Some(value: T)

  lemma HasMember<T(!new)>(s: seq<T>)
    ensures s == [] || exists x :: x in s
  {
    if s != [] { assert s[0] in s; }
  }
}
