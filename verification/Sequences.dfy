/** A fact about sequences that the verifier does not use on its own. */
module Sequences {

  lemma Associative<T>(a: seq<T>, b: seq<T>, c: seq<T>)
    ensures a + (b + c) == (a + b) + c
  {
  }

  lemma AssociativeFour<T>(a: seq<T>, b: seq<T>, c: seq<T>, d: seq<T>, rest: seq<T>)
    ensures a + (b + (c + d)) + rest == a + (b + (c + (d + rest)))
  {
    Associative(c, d, rest);
    Associative(b, c + d, rest);
    Associative(a, b + (c + d), rest);
  }
}
