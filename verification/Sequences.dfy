/** Facts about concatenation. */
module Sequences {
  lemma Assoc<T>(a: seq<T>, b: seq<T>, c: seq<T>)
    ensures (a + b) + c == a + (b + c)
  {}

  lemma NothingFirst<T>(s: seq<T>)
    ensures [] + s == s
  {}

  lemma FirstOut<T>(a: seq<T>, b: seq<T>)
    ensures a != [] ==> a + b == [a[0]] + (a[1..] + b)
  {}
}
