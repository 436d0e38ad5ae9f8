/**
 * What several components use: optional values, sequences with an element taken out,
 * strings that end with a null, and powers of two.
 */
module Basics {

  datatype Option<T> = None | Some(value: T)

  function Without<T>(s: seq<T>, i: nat): seq<T>
    requires i < |s|
  {
    s[..i] + s[i + 1..]
  }

  lemma Associative<T>(a: seq<T>, b: seq<T>, c: seq<T>)
    ensures a + (b + c) == (a + b) + c
  {
  }

  // The character at i; a string ends with a null.
  function At(s: string, i: nat): char { if i < |s| then s[i] else '\0' }

  function Pow2(n: nat): (p: int)
    ensures p >= 1
  {
    if n == 0 then 1 else 2 * Pow2(n - 1)
  }
}
