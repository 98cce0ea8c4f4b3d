/** Optional values and a fact about sequences, shared by the other modules. */
module Wrappers {
  datatype Option<+T> = None | Some(value: T)

  lemma {:induction false} Reassociate<T>(a: seq<T>, b: seq<T>, c: seq<T>)
    ensures (a + b) + c == a + (b + c)
  {}
}
