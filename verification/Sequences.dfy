/** Facts about concatenation, stated apart so that proofs can ask for them one
    at a time. */
module Sequences {
  lemma ConcatAssociative<T>(a: seq<T>, b: seq<T>, c: seq<T>)
    ensures a + (b + c) == (a + b) + c
  {
  }

  lemma ConcatNothing<T>(a: seq<T>)
    ensures a + [] == a
  {
  }

  lemma NothingConcat<T>(a: seq<T>)
    ensures [] + a == a
  {
  }
}
