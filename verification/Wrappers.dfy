/** The option type and a fact about sequences that the modules share. */
module Wrappers {
  datatype Option<+T> = None | Some(value: T)

  lemma Assoc<T>(a: seq<T>, b: seq<T>, c: seq<T>)
    ensures (a + b) + c == a + (b + c)
  {
  }
}
