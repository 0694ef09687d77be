/** What the other modules share: an option type and one fact about sequences. */
module Prelude {
  datatype Option<+T> = None | Some(value: T)

  lemma ConcatAssociates<T>(xs: seq<T>, y: T, zs: seq<T>)
    ensures xs + ([y] + zs) == (xs + [y]) + zs
  {
  }
}
