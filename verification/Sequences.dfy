/** Laws of sequences that the solver has to be told. */
module Sequences {

  lemma SeqAssoc<T>(a: seq<T>, b: seq<T>, c: seq<T>)
    ensures (a + b) + c == a + (b + c)
  {
  }

  lemma EmptyUnit<T>(a: seq<T>)
    ensures a + [] == a && [] + a == a
  {
  }
}
