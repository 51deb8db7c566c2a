/** An optional value, and one law of concatenation that the loop proofs name. */
module Basics {

  datatype Option<T> = None | Some(value: T)

  /** Concatenation associates; as a lemma it rewrites exactly where a proof asks for it. */
  lemma Associative<T>(a: seq<T>, b: seq<T>, c: seq<T>)
    ensures a + (b + c) == a + b + c
    ensures a + [] == a
  {
  }
}
