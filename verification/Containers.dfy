/** What several modules share about values and sequences. */
module Containers {
  type Byte = x: int | 0 <= x < 256

  datatype Option<T> = None | Some(value: T)

  lemma Assoc<T>(a: seq<T>, b: seq<T>, c: seq<T>)
    ensures (a + b) + c == a + (b + c)
  {
  }
}
