/** The "element at an index, or a default past the end" helper that
    AlignColumns.js installs on every array (`array.either(index).or(default)`),
    written as a plain function over sequences. */
module Either {

  /** The element of `s` at `i` when `i` is a valid index, `fallback` otherwise. */
  function ElementOrDefault<T>(s: seq<T>, i: nat, fallback: T): (r: T)
    ensures i < |s| ==> r == s[i]
    ensures |s| <= i ==> r == fallback
  {
    if i < |s| then s[i] else fallback
  }
}
